/**
 Memory consolidation: retention tiers, the two planners, and the scheduler's tick with and
 without retrieval feedback (crates/tdw-agent/src/base.rs, crates/tdw-agent/src/consolidate.rs,
 crates/tdw-agent-store/src/memory.rs).
 */
module Consolidation {
  import opened Results
  import opened StringOrder
  import opened Feedback

  // ---------- tiers ----------

  datatype Retention = Working | ShortTerm | MidTerm | LongTerm | Core {
    function TtlDays(): Option<nat> {
      match this
      case Working => Some(0)
      case ShortTerm => Some(1)
      case MidTerm => Some(7)
      case LongTerm => Some(90)
      case Core => None
    }

    function Next(): Retention {
      match this
      case Working => ShortTerm
      case ShortTerm => MidTerm
      case MidTerm => LongTerm
      case LongTerm => Core
      case Core => Core
    }

    function Rank(): nat {
      match this
      case Working => 0
      case ShortTerm => 1
      case MidTerm => 2
      case LongTerm => 3
      case Core => 4
    }
  }

  datatype Memory = Memory(name: string, retention: Retention, lastConsolidated: Option<string>)

  // ---------- ages ----------

  /** Reads an RFC 3339 timestamp as nanoseconds on one time line, or rejects it. */
  type Clock = string -> Option<int>

  const DAY: int := 86_400_000_000_000
  const MAX_AGE: nat := 0xFFFF_FFFF

  /** Whole days from last to now, zero when either is missing or unreadable or now is earlier. */
  function AgeDays(parse: Clock, last: Option<string>, now: string): nat {
    if last.None? then 0
    else match (parse(last.value), parse(now))
      case (Some(l), Some(n)) => if n <= l then 0 else if (n - l) / DAY > MAX_AGE then MAX_AGE else (n - l) / DAY
      case _ => 0
  }

  /** A later anchor never makes a memory older. */
  lemma LaterIsYounger(parse: Clock, a: string, b: string, now: string)
    requires parse(a).Some? && parse(b).Some? && parse(a).value >= parse(b).value
    ensures AgeDays(parse, Some(a), now) <= AgeDays(parse, Some(b), now)
  {
    if parse(now).Some? && parse(now).value > parse(a).value {
      DaysMono(parse(now).value - parse(a).value, parse(now).value - parse(b).value);
    }
  }

  lemma DaysMono(x: int, y: int)
    requires 0 <= x <= y
    ensures 0 <= x / DAY <= y / DAY
  {
  }

  // ---------- the planners ----------

  datatype Action = Promote(name: string, from: Retention, to: Retention) | Expire(name: string)

  datatype UsageHint = UsageHint(recencyCreditDays: nat, useCount: nat)

  /** An overdue memory is expired from the working tier and promoted from any other but core. */
  function Decide(m: Memory, age: nat): Option<Action> {
    match m.retention.TtlDays()
    case None => None
    case Some(ttl) =>
      if age < ttl then None
      else if m.retention == Working then Some(Expire(m.name))
      else Some(Promote(m.name, m.retention, m.retention.Next()))
  }

  function PlanOf(aged: seq<(Memory, nat)>): seq<Action> {
    if aged == [] then []
    else
      var n := |aged| - 1;
      var d := Decide(aged[n].0, aged[n].1);
      PlanOf(aged[..n]) + if d.Some? then [d.value] else []
  }

  lemma PlanAppend(aged: seq<(Memory, nat)>, m: Memory, age: nat)
    ensures PlanOf(aged + [(m, age)]) == PlanOf(aged) + if Decide(m, age).Some? then [Decide(m, age).value] else []
  {
    assert (aged + [(m, age)])[..|aged|] == aged;
  }

  /** The plan written out: in order, one action for each memory whose tier has run out. */
  lemma PlanIs(aged: seq<(Memory, nat)>, m: Memory, age: nat)
    ensures PlanOf([]) == []
    ensures PlanOf(aged + [(m, age)]) == PlanOf(aged) + match m.retention
      case Working => [Expire(m.name)]
      case ShortTerm => if age >= 1 then [Promote(m.name, ShortTerm, MidTerm)] else []
      case MidTerm => if age >= 7 then [Promote(m.name, MidTerm, LongTerm)] else []
      case LongTerm => if age >= 90 then [Promote(m.name, LongTerm, Core)] else []
      case Core => []
  {
    PlanAppend(aged, m, age);
  }

  method ConsolidationPlan(aged: seq<(Memory, nat)>) returns (actions: seq<Action>)
    ensures actions == PlanOf(aged)
  {
    actions := [];
    for i := 0 to |aged|
      invariant actions == PlanOf(aged[..i])
    {
      var (memory, age) := aged[i];
      assert aged[..i + 1] == aged[..i] + [(memory, age)];
      PlanAppend(aged[..i], memory, age);
      var tier := memory.retention;
      var ttl := tier.TtlDays();
      if ttl.None? {
        continue;
      }
      if age < ttl.value {
        continue;
      }
      if tier == Working {
        actions := actions + [Expire(memory.name)];
      } else {
        actions := actions + [Promote(memory.name, tier, tier.Next())];
      }
    }
    assert aged[..|aged|] == aged;
  }

  function SaturatingSub(a: nat, b: nat): nat { if a >= b then a - b else 0 }

  /** The ages after subtracting each memory's recency credit. */
  function Credited(aged: seq<(Memory, nat, UsageHint)>): seq<(Memory, nat)> {
    seq(|aged|, i requires 0 <= i < |aged| => (aged[i].0, SaturatingSub(aged[i].1, aged[i].2.recencyCreditDays)))
  }

  /** The usage-aware planner is the plain one at credited ages. */
  method ConsolidationPlanWithUsage(aged: seq<(Memory, nat, UsageHint)>) returns (actions: seq<Action>)
    ensures actions == PlanOf(Credited(aged))
  {
    actions := [];
    for i := 0 to |aged|
      invariant actions == PlanOf(Credited(aged[..i]))
    {
      var (memory, age, hint) := aged[i];
      var effective := SaturatingSub(age, hint.recencyCreditDays);
      assert Credited(aged[..i + 1]) == Credited(aged[..i]) + [(memory, effective)];
      PlanAppend(Credited(aged[..i]), memory, effective);
      var tier := memory.retention;
      var ttl := tier.TtlDays();
      if ttl.None? {
        continue;
      }
      if effective < ttl.value {
        continue;
      }
      if tier == Working {
        actions := actions + [Expire(memory.name)];
      } else {
        actions := actions + [Promote(memory.name, tier, tier.Next())];
      }
    }
    assert aged[..|aged|] == aged;
  }

  // ---------- usage ----------

  predicate References(e: RetrievalEvent, name: string) {
    e.used && (e.agentId == name || name in e.hitIds)
  }

  /** The greatest timestamp text of the used events that reference the memory. */
  function LastUsed(events: seq<RetrievalEvent>, name: string): Option<string> {
    if events == [] then None
    else
      var n := |events| - 1;
      var before := LastUsed(events[..n], name);
      if References(events[n], name) && (before.None? || Less(before.value, events[n].recordedAt))
      then Some(events[n].recordedAt) else before
  }

  function Credit(parse: Clock, events: seq<RetrievalEvent>, m: Memory, now: string): nat {
    match LastUsed(events, m.name)
    case None => 0
    case Some(at) => SaturatingSub(AgeDays(parse, m.lastConsolidated, now), AgeDays(parse, Some(at), now))
  }

  function UseCount(events: seq<RetrievalEvent>, name: string): nat {
    |set e | e in events && References(e, name) :: e.queryFingerprint|
  }

  function HintFor(parse: Clock, events: seq<RetrievalEvent>, m: Memory, now: string): UsageHint {
    UsageHint(Credit(parse, events, m, now), if UseCount(events, m.name) > MAX_AGE then MAX_AGE else UseCount(events, m.name))
  }

  /** The hint counts different queries among the uses, up to the range of the program's counter. */
  lemma HintCounts(parse: Clock, events: seq<RetrievalEvent>, m: Memory, now: string)
    ensures var queries := set e | e in events && e.used && (e.agentId == m.name || m.name in e.hitIds) :: e.queryFingerprint;
      HintFor(parse, events, m, now).useCount == if |queries| <= 0xFFFF_FFFF then |queries| else 0xFFFF_FFFF
  {
    hide Credit;
    assert (set e | e in events && References(e, m.name) :: e.queryFingerprint) ==
           (set e | e in events && e.used && (e.agentId == m.name || m.name in e.hitIds) :: e.queryFingerprint);
  }

  /** The age the tick acts on: without feedback the raw one, else what the credit leaves of it. */
  function EffectiveAge(parse: Clock, events: Option<seq<RetrievalEvent>>, m: Memory, now: string): nat {
    var raw := AgeDays(parse, m.lastConsolidated, now);
    if events.None? then raw else SaturatingSub(raw, Credit(parse, events.value, m, now))
  }

  /** Credit caps the age at the days since the last use; unused memories keep their raw age. */
  lemma EffectiveAgeIsMinimum(parse: Clock, events: seq<RetrievalEvent>, m: Memory, now: string)
    ensures var raw, eff := AgeDays(parse, m.lastConsolidated, now), EffectiveAge(parse, Some(events), m, now);
      match LastUsed(events, m.name)
      case None => eff == raw
      case Some(at) => eff == if AgeDays(parse, Some(at), now) <= raw then AgeDays(parse, Some(at), now) else raw
  {
  }

  lemma {:induction false} LastUsedIsLatest(events: seq<RetrievalEvent>, name: string)
    ensures LastUsed(events, name).None? <==> forall e :: e in events ==> !References(e, name)
    ensures LastUsed(events, name).Some? ==>
      && (exists e :: e in events && References(e, name) && e.recordedAt == LastUsed(events, name).value)
      && forall e :: e in events && References(e, name) ==> AtMost(e.recordedAt, LastUsed(events, name).value)
  {
    hide Less;
    if events != [] {
      var n := |events| - 1;
      var last, before := events[n], LastUsed(events[..n], name);
      LastUsedIsLatest(events[..n], name);
      assert events == events[..n] + [last];
      if before.Some? {
        LessTotal(before.value, last.recordedAt);
        var x :| x in events[..n] && References(x, name) && x.recordedAt == before.value;
        assert x in events;
        forall e | e in events && References(e, name)
          ensures AtMost(e.recordedAt, LastUsed(events, name).value)
        {
          if e in events[..n] && Less(e.recordedAt, before.value) && Less(before.value, last.recordedAt) {
            LessTransitive(e.recordedAt, before.value, last.recordedAt);
          }
        }
      } else if References(last, name) {
        assert last in events;
      }
    }
  }

  // ---------- one tick ----------

  /** What becomes of an overdue or surviving memory; none when it expires. */
  function Fate(m: Memory, age: nat, now: string): Option<Memory> {
    match Decide(m, age)
    case None => Some(m)
    case Some(Expire(_)) => None
    case Some(Promote(_, _, to)) => Some(m.(retention := to, lastConsolidated := Some(now)))
  }

  ghost predicate Keyed(entries: map<string, Memory>) {
    forall k :: k in entries ==> entries[k].name == k
  }

  /** All memories after a tick, each decided on its own. */
  ghost function Ticked(parse: Clock, events: Option<seq<RetrievalEvent>>, entries: map<string, Memory>, now: string): map<string, Memory> {
    map k | k in entries && Fate(entries[k], EffectiveAge(parse, events, entries[k], now), now).Some? ::
      Fate(entries[k], EffectiveAge(parse, events, entries[k], now), now).value
  }

  function KeySet(keys: seq<string>): set<string> { set k | k in keys }

  /** Memories whose key is in done have met their fate, the others have not. */
  ghost predicate PartlyTicked(parse: Clock, events: Option<seq<RetrievalEvent>>, before: map<string, Memory>, now: string,
                               done: set<string>, entries: map<string, Memory>)
  {
    var after := Ticked(parse, events, before, now);
    && (forall k :: k in done ==> k in before)
    && (forall k :: k in entries <==> if k in done then k in after else k in before)
    && forall k :: k in entries ==> entries[k] == if k in done then after[k] else before[k]
  }

  /** The pair a tick hands to the planner for one memory. */
  ghost function Aged(parse: Clock, events: Option<seq<RetrievalEvent>>, entries: map<string, Memory>, keys: seq<string>, now: string): (r: seq<(Memory, nat)>)
    requires forall k :: k in keys ==> k in entries
    ensures |r| == |keys|
  {
    seq(|keys|, i requires 0 <= i < |keys| => (entries[keys[i]], EffectiveAge(parse, events, entries[keys[i]], now)))
  }

  /** What the bare tick plans with. */
  lemma AgedRaw(parse: Clock, entries: map<string, Memory>, keys: seq<string>, now: string)
    requires forall k :: k in keys ==> k in entries
    ensures seq(|keys|, i requires 0 <= i < |keys| && keys[i] in entries =>
              (entries[keys[i]], AgeDays(parse, entries[keys[i]].lastConsolidated, now))) ==
            Aged(parse, None, entries, keys, now)
  {
    hide AgeDays;
  }

  /** What the usage-aware tick plans with. */
  lemma AgedByUse(parse: Clock, events: seq<RetrievalEvent>, entries: map<string, Memory>, keys: seq<string>, now: string)
    requires forall k :: k in keys ==> k in entries
    ensures Credited(seq(|keys|, i requires 0 <= i < |keys| && keys[i] in entries =>
              (entries[keys[i]], AgeDays(parse, entries[keys[i]].lastConsolidated, now), HintFor(parse, events, entries[keys[i]], now)))) ==
            Aged(parse, Some(events), entries, keys, now)
  {
    hide AgeDays, Credit, UseCount;
  }

  function Applied(entries: map<string, Memory>, a: Action, now: string): map<string, Memory> {
    match a
    case Promote(name, _, to) =>
      if name in entries then entries[name := entries[name].(retention := to, lastConsolidated := Some(now))] else entries
    case Expire(name) => entries - {name}
  }

  function AppliedAll(entries: map<string, Memory>, actions: seq<Action>, now: string): map<string, Memory> {
    if actions == [] then entries
    else Applied(AppliedAll(entries, actions[..|actions| - 1], now), actions[|actions| - 1], now)
  }

  lemma AppliedAppend(entries: map<string, Memory>, actions: seq<Action>, a: Action, now: string)
    ensures AppliedAll(entries, actions + [a], now) == Applied(AppliedAll(entries, actions, now), a, now)
  {
    assert (actions + [a])[..|actions|] == actions;
  }

  /** Applying one memory's decision to a store where it is still untouched is its fate. */
  lemma DecisionIsFate(parse: Clock, events: Option<seq<RetrievalEvent>>, before: map<string, Memory>, now: string,
                       done: set<string>, entries: map<string, Memory>, key: string)
    requires Keyed(before) && PartlyTicked(parse, events, before, now, done, entries) && key in before && key !in done
    ensures var d := Decide(before[key], EffectiveAge(parse, events, before[key], now));
      PartlyTicked(parse, events, before, now, done + {key}, if d.Some? then Applied(entries, d.value, now) else entries)
  {
    hide EffectiveAge;
  }

  /** The plan over distinct keys of a store, applied, ticks exactly those memories. */
  lemma {:induction false} PlanTicks(parse: Clock, events: Option<seq<RetrievalEvent>>, before: map<string, Memory>, keys: seq<string>, now: string)
    requires Keyed(before) && (forall k :: k in keys ==> k in before)
    requires forall i, j :: 0 <= i < j < |keys| ==> keys[i] != keys[j]
    ensures PartlyTicked(parse, events, before, now, KeySet(keys), AppliedAll(before, PlanOf(Aged(parse, events, before, keys, now)), now))
    decreases |keys|
  {
    hide EffectiveAge, Applied, AppliedAll, Decide, PlanOf, Aged;
    if keys == [] {
      NothingPlanned(parse, events, before, now);
    } else {
      var n := |keys| - 1;
      var init, last := keys[..n], keys[n];
      PlanTicks(parse, events, before, init, now);
      PlanStep(parse, events, before, keys, now);
      var soFar := AppliedAll(before, PlanOf(Aged(parse, events, before, init, now)), now);
      assert last !in KeySet(init);
      DecisionIsFate(parse, events, before, now, KeySet(init), soFar, last);
      assert KeySet(keys) == KeySet(init) + {last} by {
        assert keys == init + [last];
      }
    }
  }

  lemma NothingPlanned(parse: Clock, events: Option<seq<RetrievalEvent>>, before: map<string, Memory>, now: string)
    ensures PartlyTicked(parse, events, before, now, KeySet([]), AppliedAll(before, PlanOf(Aged(parse, events, before, [], now)), now))
  {
    assert KeySet([]) == {};
    NoPlan();
  }

  /** The plan for one more key applies that key's decision last. */
  lemma PlanStep(parse: Clock, events: Option<seq<RetrievalEvent>>, before: map<string, Memory>, keys: seq<string>, now: string)
    requires keys != [] && (forall k :: k in keys ==> k in before)
    ensures var n := |keys| - 1;
      var soFar := AppliedAll(before, PlanOf(Aged(parse, events, before, keys[..n], now)), now);
      var d := Decide(before[keys[n]], EffectiveAge(parse, events, before[keys[n]], now));
      AppliedAll(before, PlanOf(Aged(parse, events, before, keys, now)), now) == if d.Some? then Applied(soFar, d.value, now) else soFar
  {
    hide EffectiveAge, Applied, AppliedAll, Decide, PlanOf;
    var n := |keys| - 1;
    var init, m := keys[..n], before[keys[n]];
    var age, aged := EffectiveAge(parse, events, m, now), Aged(parse, events, before, init, now);
    assert Aged(parse, events, before, keys, now) == aged + [(m, age)];
    PlanAppend(aged, m, age);
    var plan := PlanOf(aged);
    if Decide(m, age).Some? {
      AppliedAppend(before, plan, Decide(m, age).value, now);
    } else {
      assert plan + [] == plan;
    }
  }

  lemma NoPlan()
    ensures PlanOf([]) == []
  {
  }

  datatype MemoryStoreError = InvalidName(name: string)

  predicate IsControl(c: char) { c as int < 0x20 || 0x7F <= c as int <= 0x9F }

  /** A single file name: no separators, no traversal, no control characters. */
  predicate SafePathSegment(name: string) {
    name != "" && name != "." && name != ".." && forall c :: c in name ==> c != '/' && c != '\\' && !IsControl(c)
  }

  function Upserted(entries: map<string, Memory>, memory: Memory, now: string): map<string, Memory> {
    if SafePathSegment(memory.name) then entries[memory.name := Anchored(memory, now)] else entries
  }

  class MemoryStore {
    var entries: map<string, Memory>

    ghost predicate Valid()
      reads this
    {
      Keyed(entries)
    }

    constructor ()
      ensures Valid() && entries == map[]
    {
      entries := map[];
    }

    /** Insert or replace; a memory without an anchor ages from now, an unsafe name is refused. */
    method UpsertAt(memory: Memory, now: string) returns (r: Result<(), MemoryStoreError>)
      requires Valid()
      modifies this
      ensures Valid() && entries == Upserted(old(entries), memory, now)
      ensures r.Ok? <==>
        && memory.name != "" && memory.name != "." && memory.name != ".."
        && forall c :: c in memory.name ==> c != '/' && c != '\\' && 0x20 <= c as int && !(0x7F <= c as int <= 0x9F)
      ensures r.Err? ==> r == Err(InvalidName(memory.name)) && entries == old(entries)
      ensures r.Ok? ==> entries == old(entries)[memory.name :=
        if memory.lastConsolidated.None? then Memory(memory.name, memory.retention, Some(now)) else memory]
    {
      var stamped := memory;
      if memory.lastConsolidated.None? {
        stamped := memory.(lastConsolidated := Some(now));
      }
      if !SafePathSegment(memory.name) {
        return Err(InvalidName(memory.name));
      }
      entries := entries[memory.name := stamped];
      r := Ok(());
    }

    method Remove(name: string)
      requires Valid()
      modifies this
      ensures Valid() && entries == old(entries) - {name}
    {
      entries := entries - {name};
    }

    /** The apply loop of both ticks. */
    method ApplyActions(actions: seq<Action>, now: string)
      modifies this
      ensures entries == AppliedAll(old(entries), actions, now)
    {
      for i := 0 to |actions|
        invariant entries == AppliedAll(old(entries), actions[..i], now)
      {
        assert actions[..i + 1] == actions[..i] + [actions[i]];
        AppliedAppend(old(entries), actions[..i], actions[i], now);
        match actions[i] {
          case Promote(name, _, to) =>
            if name in entries {
              entries := entries[name := entries[name].(retention := to, lastConsolidated := Some(now))];
            }
          case Expire(name) =>
            entries := entries - {name};
        }
      }
      assert actions[..|actions|] == actions;
    }

    method ConsolidateAt(parse: Clock, now: string) returns (actions: seq<Action>)
      requires Valid()
      modifies this
      ensures Valid() && entries == Ticked(parse, None, old(entries), now)
      ensures actions == PlanOf(Aged(parse, None, old(entries), Ascending(old(entries).Keys), now))
    {
      hide AgeDays, Decide, PlanOf, Ticked, AppliedAll, Aged, Ascending;
      var keys := Ascending(entries.Keys);
      var store := entries;
      var aged := seq(|keys|, i requires 0 <= i < |keys| && keys[i] in store =>
        (store[keys[i]], AgeDays(parse, store[keys[i]].lastConsolidated, now)));
      AgedRaw(parse, store, keys, now);
      actions := ConsolidationPlan(aged);
      TickComplete(parse, None, entries, now);
      ApplyActions(actions, now);
    }

    method ApplyFeedbackTick(parse: Clock, events: Option<seq<RetrievalEvent>>, now: string) returns (actions: seq<Action>)
      requires Valid()
      modifies this
      ensures Valid() && entries == Ticked(parse, events, old(entries), now)
      ensures actions == PlanOf(Aged(parse, events, old(entries), Ascending(old(entries).Keys), now))
    {
      hide AgeDays, Decide, PlanOf, Credited, HintFor, Ticked, AppliedAll, Aged, Ascending;
      if events.None? {
        actions := ConsolidateAt(parse, now);
        return;
      }
      var keys := Ascending(entries.Keys);
      var store := entries;
      var aged := seq(|keys|, i requires 0 <= i < |keys| && keys[i] in store =>
        (store[keys[i]], AgeDays(parse, store[keys[i]].lastConsolidated, now), HintFor(parse, events.value, store[keys[i]], now)));
      AgedByUse(parse, events.value, store, keys, now);
      actions := ConsolidationPlanWithUsage(aged);
      TickComplete(parse, events, entries, now);
      ApplyActions(actions, now);
    }
  }

  function Anchored(m: Memory, now: string): Memory {
    if m.lastConsolidated.None? then m.(lastConsolidated := Some(now)) else m
  }

  lemma TickComplete(parse: Clock, events: Option<seq<RetrievalEvent>>, entries: map<string, Memory>, now: string)
    requires Keyed(entries)
    ensures AppliedAll(entries, PlanOf(Aged(parse, events, entries, Ascending(entries.Keys), now)), now) == Ticked(parse, events, entries, now)
    ensures Keyed(Ticked(parse, events, entries, now))
  {
    hide EffectiveAge, PlanOf, Aged, AppliedAll, Fate, Ascending, PartlyTicked, Ticked;
    var keys := Ascending(entries.Keys);
    AscendingDistinct(entries.Keys);
    PlanTicks(parse, events, entries, keys, now);
    assert KeySet(keys) == entries.Keys;
    FullyTicked(parse, events, entries, now, AppliedAll(entries, PlanOf(Aged(parse, events, entries, keys, now)), now));
    TickedKeyed(parse, events, entries, now);
  }

  lemma FullyTicked(parse: Clock, events: Option<seq<RetrievalEvent>>, before: map<string, Memory>, now: string, entries: map<string, Memory>)
    requires PartlyTicked(parse, events, before, now, before.Keys, entries)
    ensures entries == Ticked(parse, events, before, now)
  {
    hide EffectiveAge, Fate;
  }

  lemma TickedKeyed(parse: Clock, events: Option<seq<RetrievalEvent>>, entries: map<string, Memory>, now: string)
    requires Keyed(entries)
    ensures Keyed(Ticked(parse, events, entries, now))
  {
    hide EffectiveAge;
  }

  // ---------- when a memory moves on ----------

  /** Both times are readable and at least this many nanoseconds apart. */
  predicate Rested(parse: Clock, since: Option<string>, now: string, nanos: int) {
    since.Some? && parse(since.value).Some? && parse(now).Some? && parse(now).value - parse(since.value).value >= nanos
  }

  /** The text of the latest use of the memory, if it was ever used. */
  ghost predicate IsLatestUse(events: seq<RetrievalEvent>, name: string, at: Option<string>) {
    match at
    case None => forall e :: e in events ==> !(e.used && (e.agentId == name || name in e.hitIds))
    case Some(t) =>
      && (exists e :: e in events && e.used && (e.agentId == name || name in e.hitIds) && e.recordedAt == t)
      && forall e :: e in events && e.used && (e.agentId == name || name in e.hitIds) ==> AtMost(e.recordedAt, t)
  }

  /** Whole days reach a number of days exactly when the nanoseconds do. */
  lemma DaysReach(parse: Clock, last: Option<string>, now: string, days: nat)
    requires 0 < days <= 90
    ensures AgeDays(parse, last, now) >= days <==> Rested(parse, last, now, days * 86_400_000_000_000)
  {
    if last.Some? && parse(last.value).Some? && parse(now).Some? {
      var gap := parse(now).value - parse(last.value).value;
      assert gap >= 0 ==> (gap / DAY >= days <==> gap >= days * DAY);
    }
  }

  /**
   What a tick makes of a memory, in elapsed time: working memories go, core ones stay, and the
   others move up one tier exactly when one, seven or ninety days have passed since the anchor
   and, with feedback, since the latest use. Unreadable times keep a memory where it is.
   */
  lemma TickMoves(parse: Clock, events: Option<seq<RetrievalEvent>>, entries: map<string, Memory>, now: string, k: string,
                  used: Option<string>)
    requires if events.None? then used.None? else k in entries ==> IsLatestUse(events.value, entries[k].name, used)
    ensures var after := Ticked(parse, events, entries, now);
      if k !in entries then k !in after
      else
        var m := entries[k];
        var name, since := m.name, m.lastConsolidated;
        match m.retention
        case Working => k !in after
        case ShortTerm => k in after && after[k] ==
          if Rested(parse, since, now, 86_400_000_000_000) && (used.Some? ==> Rested(parse, used, now, 86_400_000_000_000))
          then Memory(name, MidTerm, Some(now)) else m
        case MidTerm => k in after && after[k] ==
          if Rested(parse, since, now, 604_800_000_000_000) && (used.Some? ==> Rested(parse, used, now, 604_800_000_000_000))
          then Memory(name, LongTerm, Some(now)) else m
        case LongTerm => k in after && after[k] ==
          if Rested(parse, since, now, 7_776_000_000_000_000) && (used.Some? ==> Rested(parse, used, now, 7_776_000_000_000_000))
          then Memory(name, Core, Some(now)) else m
        case Core => k in after && after[k] == m
  {
    hide AgeDays, EffectiveAge, Rested;
    TickedAt(parse, events, entries, now, k);
    if k in entries {
      var m := entries[k];
      AgeIs(parse, events, m, now, used);
      if m.retention.TtlDays().Some? && m.retention != Working {
        var days := m.retention.TtlDays().value;
        DaysReach(parse, m.lastConsolidated, now, days);
        DaysReach(parse, used, now, days);
      }
    }
  }

  lemma AgeIs(parse: Clock, events: Option<seq<RetrievalEvent>>, m: Memory, now: string, used: Option<string>)
    requires if events.None? then used.None? else IsLatestUse(events.value, m.name, used)
    ensures var raw, rest := AgeDays(parse, m.lastConsolidated, now), AgeDays(parse, used, now);
      EffectiveAge(parse, events, m, now) == if used.Some? && rest < raw then rest else raw
  {
    hide AgeDays;
    if events.Some? {
      LastUsedIsLatest(events.value, m.name);
      if used.Some? && LastUsed(events.value, m.name).Some? {
        AtMostAntisymmetric(used.value, LastUsed(events.value, m.name).value);
      }
    }
  }

  lemma AtMostAntisymmetric(a: string, b: string)
    requires AtMost(a, b) && AtMost(b, a)
    ensures a == b
  {
    if a != b {
      LessTransitive(a, b, a);
      LessIrreflexive(a);
    }
  }

  /** The steps neither replace nor remove the memory of this name. */
  predicate LeavesAlone(steps: seq<Step>, name: string) {
    forall s :: s in steps ==> (s.Upsert? ==> s.memory.name != name) && (s.Forget? ==> s.name != name)
  }

  /**
   Over any run, with or without feedback and whatever the tick times, a short-term memory
   reaches the middle tier no sooner than one day after its anchor, the long one no sooner than
   eight days and the core no sooner than ninety-eight days after it.
   */
  lemma {:induction false} TiersTakeTime(parse: Clock, start: map<string, Memory>, steps: seq<Step>, withFeedback: bool, name: string, l: int)
    requires Keyed(start) && name in start && LeavesAlone(steps, name)
    requires start[name].retention == ShortTerm && start[name].lastConsolidated.Some? && parse(start[name].lastConsolidated.value) == Some(l)
    ensures var after := Run(parse, start, steps, withFeedback);
      && Keyed(after) && name in after && after[name].lastConsolidated.Some?
      && var at := parse(after[name].lastConsolidated.value);
         match after[name].retention
         case Working => false
         case ShortTerm => after[name] == start[name]
         case MidTerm => at.Some? && at.value - l >= 86_400_000_000_000
         case LongTerm => at.Some? && at.value - l >= 8 * 86_400_000_000_000
         case Core => at.Some? && at.value - l >= 98 * 86_400_000_000_000
  {
    hide Ticked, Keyed;
    if steps != [] {
      var init, s := steps[..|steps| - 1], steps[|steps| - 1];
      assert s in steps && forall x :: x in init ==> x in steps;
      TiersTakeTime(parse, start, init, withFeedback, name, l);
      var now := Run(parse, start, init, withFeedback);
      AdvanceKeyed(parse, now, s, withFeedback);
      if s.Tick? {
        var events := if withFeedback then s.events else None;
        TickOnlyByRest(parse, events, now, s.now, name);
      }
    }
  }

  lemma AdvanceKeyed(parse: Clock, entries: map<string, Memory>, s: Step, withFeedback: bool)
    requires Keyed(entries)
    ensures Keyed(Advance(parse, entries, s, withFeedback))
  {
    hide Ticked;
    if s.Tick? {
      TickedKeyed(parse, if withFeedback then s.events else None, entries, s.now);
    }
  }

  /** A tick keeps a memory as it is, or moves it up because its anchor lies far enough back. */
  lemma TickOnlyByRest(parse: Clock, events: Option<seq<RetrievalEvent>>, entries: map<string, Memory>, now: string, k: string)
    requires k in entries && entries[k].retention != Working
    ensures var m, after := entries[k], Ticked(parse, events, entries, now);
      && k in after
      && (after[k] == m || after[k].lastConsolidated == Some(now))
      && (after[k] != m ==>
            || (m.retention == ShortTerm && after[k].retention == MidTerm && Rested(parse, m.lastConsolidated, now, 86_400_000_000_000))
            || (m.retention == MidTerm && after[k].retention == LongTerm && Rested(parse, m.lastConsolidated, now, 604_800_000_000_000))
            || (m.retention == LongTerm && after[k].retention == Core && Rested(parse, m.lastConsolidated, now, 7_776_000_000_000_000)))
  {
    hide Rested, Ticked;
    var used := if events.None? then None else LastUsed(events.value, entries[k].name);
    if events.Some? {
      LastUsedIsLatest(events.value, entries[k].name);
    }
    TickMoves(parse, events, entries, now, k, used);
  }

  // ---------- two runs compared ----------

  /** Something that happens to a store; a tick carries what the feedback store holds then, if anything. */
  datatype Step =
    | Tick(now: string, events: Option<seq<RetrievalEvent>>)
    | Upsert(memory: Memory, at: string)
    | Forget(name: string)

  /** A step of the feedback-aware scheduler, or of the bare one that ignores the events. */
  ghost function Advance(parse: Clock, entries: map<string, Memory>, s: Step, withFeedback: bool): map<string, Memory> {
    match s
    case Tick(now, events) => Ticked(parse, if withFeedback then events else None, entries, now)
    case Upsert(memory, at) => Upserted(entries, memory, at)
    case Forget(name) => entries - {name}
  }

  ghost function Run(parse: Clock, start: map<string, Memory>, steps: seq<Step>, withFeedback: bool): map<string, Memory> {
    if steps == [] then start
    else Advance(parse, Run(parse, start, steps[..|steps| - 1], withFeedback), steps[|steps| - 1], withFeedback)
  }

  function NextClock(parse: Clock, clock: Option<int>, s: Step): Option<int> {
    if s.Tick? && parse(s.now).Some? then parse(s.now) else clock
  }

  /** The latest readable tick time. */
  function Latest(parse: Clock, steps: seq<Step>): Option<int> {
    if steps == [] then None
    else NextClock(parse, Latest(parse, steps[..|steps| - 1]), steps[|steps| - 1])
  }

  /** Readable tick times never go back. */
  predicate NeverBack(parse: Clock, steps: seq<Step>) {
    steps == [] ||
    var init, s := steps[..|steps| - 1], steps[|steps| - 1];
    NeverBack(parse, init) && NotBefore(Latest(parse, init), NextClock(parse, Latest(parse, init), s))
  }

  predicate NotBefore(a: Option<int>, b: Option<int>) {
    a.Some? ==> b.Some? && a.value <= b.value
  }

  /** The anchor x is the anchor y or a later one. */
  predicate NoOlder(parse: Clock, x: Option<string>, y: Option<string>) {
    || x == y
    || (x.Some? && y.Some? && parse(x.value).Some? && parse(y.value).Some? && parse(x.value).value >= parse(y.value).value)
  }

  /**
   The invariant between the two runs: f is in the same tier as b and no older, or it is in a
   lower tier (not working) and b was promoted at a time that has passed.
   */
  predicate Behind(parse: Clock, f: Memory, b: Memory, clock: Option<int>) {
    && f.name == b.name
    && if f.retention == b.retention then NoOlder(parse, f.lastConsolidated, b.lastConsolidated)
       else
         && f.retention != Working && f.retention.Rank() < b.retention.Rank()
         && b.lastConsolidated.Some? && parse(b.lastConsolidated.value).Some?
         && NotBefore(parse(b.lastConsolidated.value), clock)
  }

  lemma NoOlderIsYounger(parse: Clock, x: Option<string>, y: Option<string>, now: string)
    requires NoOlder(parse, x, y)
    ensures AgeDays(parse, x, now) <= AgeDays(parse, y, now)
  {
    hide AgeDays;
    if x != y {
      LaterIsYounger(parse, x.value, y.value, now);
    }
  }

  lemma CreditOnlyLowers(parse: Clock, events: Option<seq<RetrievalEvent>>, m: Memory, now: string)
    ensures EffectiveAge(parse, events, m, now) <= AgeDays(parse, m.lastConsolidated, now)
  {
    hide AgeDays, Credit;
  }

  lemma UnreadableIsAgeless(parse: Clock, last: Option<string>, now: string)
    requires parse(now).None?
    ensures AgeDays(parse, last, now) == 0
  {
  }

  lemma TickKeepsBehind(parse: Clock, events: Option<seq<RetrievalEvent>>, f: Memory, b: Memory, clock: Option<int>, now: string)
    requires Behind(parse, f, b, clock)
    requires NotBefore(clock, if parse(now).Some? then parse(now) else clock)
    ensures var f', b' := Fate(f, EffectiveAge(parse, events, f, now), now), Fate(b, EffectiveAge(parse, None, b, now), now);
      && (f'.Some? <==> b'.Some?)
      && (f'.Some? ==> Behind(parse, f'.value, b'.value, if parse(now).Some? then parse(now) else clock))
  {
    hide AgeDays, Credit, EffectiveAge;
    CreditOnlyLowers(parse, events, f, now);
    assert EffectiveAge(parse, None, b, now) == AgeDays(parse, b.lastConsolidated, now) by { RawAge(parse, b, now); }
    if f.retention == b.retention {
      NoOlderIsYounger(parse, f.lastConsolidated, b.lastConsolidated, now);
    }
    if parse(now).None? {
      UnreadableIsAgeless(parse, f.lastConsolidated, now);
      UnreadableIsAgeless(parse, b.lastConsolidated, now);
    }
  }

  lemma RawAge(parse: Clock, m: Memory, now: string)
    ensures EffectiveAge(parse, None, m, now) == AgeDays(parse, m.lastConsolidated, now)
  {
  }

  ghost predicate InStep(parse: Clock, f: map<string, Memory>, b: map<string, Memory>, clock: Option<int>) {
    f.Keys == b.Keys && forall k :: k in f ==> Behind(parse, f[k], b[k], clock)
  }

  lemma StepKeepsInStep(parse: Clock, f: map<string, Memory>, b: map<string, Memory>, clock: Option<int>, s: Step)
    requires InStep(parse, f, b, clock) && NotBefore(clock, NextClock(parse, clock, s))
    ensures InStep(parse, Advance(parse, f, s, true), Advance(parse, b, s, false), NextClock(parse, clock, s))
  {
    hide AgeDays, EffectiveAge, Fate, Behind;
    match s {
      case Tick(now, events) =>
        forall k | k in f
          ensures var f', b' := Fate(f[k], EffectiveAge(parse, events, f[k], now), now), Fate(b[k], EffectiveAge(parse, None, b[k], now), now);
            && (f'.Some? <==> b'.Some?)
            && (f'.Some? ==> Behind(parse, f'.value, b'.value, NextClock(parse, clock, s)))
        {
          TickKeepsBehind(parse, events, f[k], b[k], clock, now);
        }
      case Upsert(memory, at) =>
        SameIsBehind(parse, Anchored(memory, at), clock);
      case Forget(name) =>
    }
  }

  lemma SameIsBehind(parse: Clock, m: Memory, clock: Option<int>)
    ensures Behind(parse, m, m, clock)
  {
  }

  /**
   Run on the same steps from the same store, with tick times that never go back, the
   feedback-aware scheduler never gets ahead of the bare one: it has exactly the same memories,
   each in at most the tier the bare one has given it. As this holds for every prefix of the
   steps, it holds after every tick.
   */
  lemma {:induction false} FeedbackNeverGetsAhead(parse: Clock, start: map<string, Memory>, steps: seq<Step>)
    requires NeverBack(parse, steps)
    ensures var f, b := Run(parse, start, steps, true), Run(parse, start, steps, false);
      && InStep(parse, f, b, Latest(parse, steps))
      && f.Keys == b.Keys
      && forall k :: k in f ==> f[k].retention.Rank() <= b[k].retention.Rank()
  {
    hide Advance, Behind;
    if steps == [] {
      forall k | k in start
        ensures Behind(parse, start[k], start[k], None)
      {
        SameIsBehind(parse, start[k], None);
      }
    } else {
      var init, s := steps[..|steps| - 1], steps[|steps| - 1];
      FeedbackNeverGetsAhead(parse, start, init);
      StepKeepsInStep(parse, Run(parse, start, init, true), Run(parse, start, init, false), Latest(parse, init), s);
    }
    BehindIsLower(parse, Run(parse, start, steps, true), Run(parse, start, steps, false), Latest(parse, steps));
  }

  lemma BehindIsLower(parse: Clock, f: map<string, Memory>, b: map<string, Memory>, clock: Option<int>)
    requires InStep(parse, f, b, clock)
    ensures forall k :: k in f ==> f[k].retention.Rank() <= b[k].retention.Rank()
  {
  }

  /** No tick's feedback marks the memory as used. */
  ghost predicate NeverUsed(steps: seq<Step>, name: string) {
    forall s :: s in steps && s.Tick? && s.events.Some? ==> forall e :: e in s.events.value ==> !References(e, name)
  }

  /** Feedback that never uses a memory changes nothing about it, whatever the tick times. */
  lemma {:induction false} UnusedRunsAgree(parse: Clock, start: map<string, Memory>, steps: seq<Step>, name: string)
    requires Keyed(start) && NeverUsed(steps, name)
    ensures var f, b := Run(parse, start, steps, true), Run(parse, start, steps, false);
      && Keyed(f)
      && (name in f <==> name in b)
      && (name in f ==> f[name] == b[name])
  {
    hide AgeDays, EffectiveAge, Fate, References, Ticked;
    if steps != [] {
      var init, s := steps[..|steps| - 1], steps[|steps| - 1];
      assert s in steps && forall x :: x in init ==> x in steps;
      UnusedRunsAgree(parse, start, init, name);
      var f, b := Run(parse, start, init, true), Run(parse, start, init, false);
      if s.Tick? {
        TickedKeyed(parse, s.events, f, s.now);
        TickedAt(parse, s.events, f, s.now, name);
        TickedAt(parse, None, b, s.now, name);
        if name in f && s.events.Some? {
          UnusedAge(parse, s.events.value, f[name], s.now);
        }
      }
    }
  }

  lemma TickedAt(parse: Clock, events: Option<seq<RetrievalEvent>>, entries: map<string, Memory>, now: string, name: string)
    ensures var after := Ticked(parse, events, entries, now);
      && (name in after <==> name in entries && Fate(entries[name], EffectiveAge(parse, events, entries[name], now), now).Some?)
      && (name in after ==> Some(after[name]) == Fate(entries[name], EffectiveAge(parse, events, entries[name], now), now))
  {
    hide EffectiveAge, Fate;
  }

  lemma UnusedAge(parse: Clock, events: seq<RetrievalEvent>, m: Memory, now: string)
    requires forall e :: e in events ==> !References(e, m.name)
    ensures EffectiveAge(parse, Some(events), m, now) == EffectiveAge(parse, None, m, now)
  {
    hide AgeDays, References;
    LastUsedIsLatest(events, m.name);
  }

  /**
   The working tier never survives a tick: its lifetime is zero days, so no credit can save a
   working buffer, although the documentation of the planner says that it may.
   */
  lemma WorkingNeverSurvives(parse: Clock, events: Option<seq<RetrievalEvent>>, entries: map<string, Memory>, now: string)
    requires Keyed(entries)
    ensures forall k :: k in entries && entries[k].retention == Working ==>
      && k !in Ticked(parse, events, entries, now)
      && Decide(entries[k], EffectiveAge(parse, events, entries[k], now)) == Some(Expire(k))
    ensures forall k :: k in entries && entries[k].retention != Working ==>
      && k in Ticked(parse, events, entries, now)
      && entries[k].retention.Rank() <= Ticked(parse, events, entries, now)[k].retention.Rank()
  {
    hide EffectiveAge;
  }
}
