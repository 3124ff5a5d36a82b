/**
 The bounded retrieval-feedback store with its two first-in-first-out caps
 (crates/tdw-agent-store/src/feedback.rs).
 */
module Feedback {
  import opened Results
  import opened StringOrder

  const DEFAULT_PER_AGENT_CAP: nat := 256
  const DEFAULT_GLOBAL_CAP: nat := 4096
  const MAX_HIT_IDS: nat := 64
  const MAX_FINGERPRINT_BYTES: nat := 256

  datatype KnowledgeVersions = KnowledgeVersions(
    embedderModel: string,
    rulesVersion: Option<nat>,
    inferVersion: Option<nat>)

  datatype RetrievalEvent = RetrievalEvent(
    agentId: string,
    queryFingerprint: string,
    hitIds: seq<string>,
    versions: KnowledgeVersions,
    used: bool,
    recordedAt: string)

  datatype FeedbackError =
    | EmptyAgentId
    | EmptyFingerprint
    | FingerprintTooLong(bytes: nat)
    | EmptyEmbedderModel
    | EmptyRecordedAt

  datatype AgentUsageSummary = AgentUsageSummary(totalEvents: nat, usedCount: nat, lastUsedAt: Option<string>)

  // ---------- admission ----------

  /** The white space that trimming removes. */
  predicate IsSpace(c: char) {
    var k := c as int;
    || 9 <= k <= 13 || k == 0x20 || k == 0x85 || k == 0xA0 || k == 0x1680 || 0x2000 <= k <= 0x200A
    || k == 0x2028 || k == 0x2029 || k == 0x202F || k == 0x205F || k == 0x3000
  }

  predicate Blank(s: string) { forall c :: c in s ==> IsSpace(c) }

  /** Length in UTF-8 bytes. */
  function Utf8Length(s: string): nat {
    if s == "" then 0
    else
      var k := s[0] as int;
      (if k < 0x80 then 1 else if k < 0x800 then 2 else if k < 0x10000 then 3 else 4) + Utf8Length(s[1..])
  }

  function Validate(e: RetrievalEvent): Result<(), FeedbackError> {
    if Blank(e.agentId) then Err(EmptyAgentId)
    else if Blank(e.queryFingerprint) then Err(EmptyFingerprint)
    else if Utf8Length(e.queryFingerprint) > MAX_FINGERPRINT_BYTES then
      Err(FingerprintTooLong(Utf8Length(e.queryFingerprint)))
    else if Blank(e.versions.embedderModel) then Err(EmptyEmbedderModel)
    else if Blank(e.recordedAt) then Err(EmptyRecordedAt)
    else Ok(())
  }

  function Truncated(e: RetrievalEvent): RetrievalEvent {
    if |e.hitIds| > MAX_HIT_IDS then e.(hitIds := e.hitIds[..MAX_HIT_IDS]) else e
  }

  /** The valid events of a submission history, as admitted. */
  function Accepted(submitted: seq<RetrievalEvent>): seq<RetrievalEvent> {
    if submitted == [] then []
    else
      var n := |submitted| - 1;
      Accepted(submitted[..n]) + if Validate(submitted[n]).Ok? then [Truncated(submitted[n])] else []
  }

  /** The byte length adds up character by character, with one to four bytes for each. */
  lemma {:induction false} Utf8LengthIs(s: string, t: string)
    ensures Utf8Length(s + t) == Utf8Length(s) + Utf8Length(t)
    ensures |s| == 1 ==>
      var k := s[0] as int;
      Utf8Length(s) == if k < 0x80 then 1 else if k < 0x800 then 2 else if k < 0x10000 then 3 else 4
    decreases s
  {
    if s == "" {
      assert s + t == t;
    } else {
      assert (s + t)[1..] == s[1..] + t;
      Utf8LengthIs(s[1..], t);
    }
  }

  /** The characters counted as white space, written out. */
  predicate White(c: char) {
    c in {'\t', '\n', '\U{0b}', '\U{0c}', '\r', ' ', '\U{85}', '\U{a0}', '\U{1680}', '\U{2028}', '\U{2029}', '\U{202f}', '\U{205f}', '\U{3000}'}
    || '\U{2000}' <= c <= '\U{200a}'
  }

  /**
   Admission, written out: an event is refused when its agent, fingerprint, model or timestamp is
   blank or its fingerprint longer than 256 bytes, in that order of checks; an accepted one is
   recorded unchanged but for its hit ids, of which the first 64 stay.
   */
  lemma AdmissionIs(history: seq<RetrievalEvent>, e: RetrievalEvent)
    ensures var blank := (s: string) => forall c :: c in s ==> White(c);
      Validate(e) ==
        if blank(e.agentId) then Err(EmptyAgentId)
        else if blank(e.queryFingerprint) then Err(EmptyFingerprint)
        else if Utf8Length(e.queryFingerprint) > 256 then Err(FingerprintTooLong(Utf8Length(e.queryFingerprint)))
        else if blank(e.versions.embedderModel) then Err(EmptyEmbedderModel)
        else if blank(e.recordedAt) then Err(EmptyRecordedAt)
        else Ok(())
    ensures Accepted([]) == []
    ensures Accepted(history + [e]) == Accepted(history) +
      if Validate(e).Err? then []
      else [RetrievalEvent(e.agentId, e.queryFingerprint, if |e.hitIds| > 64 then e.hitIds[..64] else e.hitIds,
                           e.versions, e.used, e.recordedAt)]
  {
    hide Utf8Length;
    assert (history + [e])[..|history|] == history;
    forall c: char
      ensures IsSpace(c) <==> White(c)
    {
      SpacesAreWhite(c);
    }
  }

  lemma SpacesAreWhite(c: char)
    ensures IsSpace(c) <==> White(c)
  {
  }

  // ---------- events of one agent ----------

  function For(events: seq<RetrievalEvent>, agent: string): seq<RetrievalEvent> {
    if events == [] then []
    else
      var n := |events| - 1;
      For(events[..n], agent) + if events[n].agentId == agent then [events[n]] else []
  }

  lemma ForAppend(events: seq<RetrievalEvent>, e: RetrievalEvent, agent: string)
    ensures For(events + [e], agent) == For(events, agent) + if e.agentId == agent then [e] else []
  {
    assert (events + [e])[..|events|] == events;
  }

  lemma {:induction false} ForConcat(s: seq<RetrievalEvent>, t: seq<RetrievalEvent>, agent: string)
    ensures For(s + t, agent) == For(s, agent) + For(t, agent)
    decreases t
  {
    if t == [] {
      assert s + t == s;
    } else {
      var n := |t| - 1;
      assert s + t == (s + t[..n]) + [t[n]] && t == t[..n] + [t[n]];
      ForConcat(s, t[..n], agent);
      ForAppend(s + t[..n], t[n], agent);
    }
  }

  predicate SuffixOf<T(==)>(s: seq<T>, h: seq<T>) { |s| <= |h| && s == h[|h| - |s|..] }

  // ---------- one admission ----------

  /** The position of the agent's oldest stored event, or the length when it has none. */
  function Oldest(events: seq<RetrievalEvent>, agent: string): (k: nat)
    ensures k <= |events|
    ensures forall j :: 0 <= j < k ==> events[j].agentId != agent
    ensures k < |events| ==> events[k].agentId == agent
  {
    if events == [] then 0
    else if events[0].agentId == agent then 0
    else 1 + Oldest(events[1..], agent)
  }

  function Without<T>(events: seq<T>, k: nat): seq<T>
    requires k <= |events|
  {
    if k < |events| then events[..k] + events[k + 1..] else events
  }

  /** Make room for one more event of the agent, oldest of its own first, then oldest of all. */
  function Room(events: seq<RetrievalEvent>, agent: string, cap: nat, global: nat): seq<RetrievalEvent> {
    var own := if |For(events, agent)| >= cap then Without(events, Oldest(events, agent)) else events;
    if |own| >= global && own != [] then own[1..] else own
  }

  function Admit(events: seq<RetrievalEvent>, e: RetrievalEvent, cap: nat, global: nat): seq<RetrievalEvent> {
    Room(events, e.agentId, cap, global) + [e]
  }

  /** An invalid event changes nothing; a valid one is admitted with its hit ids truncated. */
  function Submit(events: seq<RetrievalEvent>, e: RetrievalEvent, cap: nat, global: nat): seq<RetrievalEvent> {
    if Validate(e).Ok? then Admit(events, Truncated(e), cap, global) else events
  }

  /** The store after a history of submissions to an empty store. */
  function Stored(submitted: seq<RetrievalEvent>, cap: nat, global: nat): seq<RetrievalEvent> {
    if submitted == [] then []
    else
      var n := |submitted| - 1;
      Submit(Stored(submitted[..n], cap, global), submitted[n], cap, global)
  }

  lemma StoredGrows(events: seq<RetrievalEvent>, e: RetrievalEvent, cap: nat, global: nat)
    ensures forall s :: events == Stored(s, cap, global) ==> Submit(events, e, cap, global) == Stored(s + [e], cap, global)
  {
    hide Submit;
    forall s | events == Stored(s, cap, global)
      ensures Submit(events, e, cap, global) == Stored(s + [e], cap, global)
    {
      assert (s + [e])[..|s|] == s;
    }
  }

  class RetrievalFeedbackStore {
    var events: seq<RetrievalEvent>
    var perAgentCap: Option<nat>
    var globalCap: Option<nat>

    constructor ()
      ensures events == [] && EffectivePerAgentCap() == 256 && EffectiveGlobalCap() == 4096
    {
      events, perAgentCap, globalCap := [], None, None;
    }

    function EffectivePerAgentCap(): nat
      reads this
    {
      if perAgentCap.Some? then perAgentCap.value else DEFAULT_PER_AGENT_CAP
    }

    function EffectiveGlobalCap(): nat
      reads this
    {
      if globalCap.Some? then globalCap.value else DEFAULT_GLOBAL_CAP
    }

    method WithPerAgentCap(cap: nat)
      modifies `perAgentCap
      ensures EffectivePerAgentCap() == cap
    {
      perAgentCap := Some(cap);
    }

    method WithGlobalCap(cap: nat)
      modifies `globalCap
      ensures EffectiveGlobalCap() == cap
    {
      globalCap := Some(cap);
    }

    method Append(event: RetrievalEvent) returns (r: Result<(), FeedbackError>)
      modifies `events
      ensures r == Validate(event)
      ensures events == Submit(old(events), event, EffectivePerAgentCap(), EffectiveGlobalCap())
      ensures forall s :: old(events) == Stored(s, EffectivePerAgentCap(), EffectiveGlobalCap()) ==>
        events == Stored(s + [event], EffectivePerAgentCap(), EffectiveGlobalCap())
    {
      hide Stored;
      StoredGrows(events, event, EffectivePerAgentCap(), EffectiveGlobalCap());
      r := Validate(event);
      if r.Err? {
        return;
      }
      var admitted := Truncated(event);
      var perAgent, global := EffectivePerAgentCap(), EffectiveGlobalCap();
      var agentCount := CountFor(admitted.agentId);
      if agentCount >= perAgent {
        var pos := Oldest(events, admitted.agentId);
        if pos < |events| {
          events := events[..pos] + events[pos + 1..];
        }
      }
      if |events| >= global {
        if |events| > 0 {
          events := events[1..];
        }
      }
      events := events + [admitted];
    }

    method CountFor(agent: string) returns (count: nat)
      ensures count == |For(events, agent)|
    {
      count := 0;
      for i := 0 to |events|
        invariant count == |For(events[..i], agent)|
      {
        assert events[..i + 1] == events[..i] + [events[i]];
        ForAppend(events[..i], events[i], agent);
        if events[i].agentId == agent {
          count := count + 1;
        }
      }
      assert events[..|events|] == events;
    }

    method UsageFor(agent: string) returns (summary: AgentUsageSummary)
      ensures IsUsage(For(events, agent), summary)
    {
      hide IsUsage, Less;
      summary := AgentUsageSummary(0, 0, None);
      NoUsage();
      for i := 0 to |events|
        invariant IsUsage(For(events[..i], agent), summary)
      {
        var e := events[i];
        assert events[..i + 1] == events[..i] + [e];
        ForAppend(events[..i], e, agent);
        if e.agentId == agent {
          UsageStep(For(events[..i], agent), e, summary);
          summary := Counted(summary, e);
        } else {
          assert For(events[..i], agent) + [] == For(events[..i], agent);
        }
      }
      assert events[..|events|] == events;
    }
  }

  // ---------- usage ----------

  function UsedOf(events: seq<RetrievalEvent>): (r: seq<RetrievalEvent>)
    ensures forall e :: e in r ==> e.used
  {
    if events == [] then []
    else
      var n := |events| - 1;
      UsedOf(events[..n]) + if events[n].used then [events[n]] else []
  }

  /** The summary counts events and used events; its time is the latest of the used ones. */
  ghost predicate IsUsage(events: seq<RetrievalEvent>, s: AgentUsageSummary) {
    var used := UsedOf(events);
    && s.totalEvents == |events|
    && s.usedCount == |used|
    && (s.lastUsedAt.None? <==> used == [])
    && (s.lastUsedAt.Some? ==>
          && (exists e :: e in used && e.recordedAt == s.lastUsedAt.value)
          && forall e :: e in used ==> AtMost(e.recordedAt, s.lastUsedAt.value))
  }

  /** A summary, event by event: how many there are, how many were used, and the latest use. */
  lemma UsageMeans(events: seq<RetrievalEvent>, s: AgentUsageSummary)
    requires IsUsage(events, s)
    ensures s.totalEvents == |events|
    ensures s.usedCount == |set i: nat | i < |events| && events[i].used|
    ensures s.lastUsedAt.None? <==> forall e :: e in events ==> !e.used
    ensures s.lastUsedAt.Some? ==>
      && (exists e :: e in events && e.used && e.recordedAt == s.lastUsedAt.value)
      && forall e :: e in events && e.used ==> e.recordedAt == s.lastUsedAt.value || Less(e.recordedAt, s.lastUsedAt.value)
  {
    hide Less;
    UsedAre(events);
  }

  lemma {:induction false} UsedAre(events: seq<RetrievalEvent>)
    ensures |UsedOf(events)| == |set i: nat | i < |events| && events[i].used|
    ensures forall e :: e in UsedOf(events) <==> e in events && e.used
  {
    var all := set i: nat | i < |events| && events[i].used;
    if events == [] {
      assert all == {};
    } else {
      var n := |events| - 1;
      UsedAre(events[..n]);
      assert events == events[..n] + [events[n]];
      var before := set i: nat | i < |events[..n]| && events[..n][i].used;
      assert all == if events[n].used then before + {n} else before;
    }
  }

  /** The loop body of `usage_for`. */
  function Counted(s: AgentUsageSummary, e: RetrievalEvent): AgentUsageSummary {
    if !e.used then s.(totalEvents := s.totalEvents + 1)
    else
      var later := s.lastUsedAt.None? || Less(s.lastUsedAt.value, e.recordedAt);
      AgentUsageSummary(s.totalEvents + 1, s.usedCount + 1, if later then Some(e.recordedAt) else s.lastUsedAt)
  }

  lemma NoUsage()
    ensures IsUsage([], AgentUsageSummary(0, 0, None))
  {
  }

  lemma UsageStep(events: seq<RetrievalEvent>, e: RetrievalEvent, s: AgentUsageSummary)
    requires IsUsage(events, s)
    ensures IsUsage(events + [e], Counted(s, e))
  {
    hide Less;
    var used, t := UsedOf(events), Counted(s, e);
    assert (events + [e])[..|events|] == events;
    if e.used {
      assert UsedOf(events + [e]) == used + [e];
      assert e in UsedOf(events + [e]);
      forall x | x in used + [e]
        ensures AtMost(x.recordedAt, t.lastUsedAt.value)
      {
        if s.lastUsedAt.Some? {
          LessTotal(s.lastUsedAt.value, e.recordedAt);
          if x in used && Less(x.recordedAt, s.lastUsedAt.value) && Less(s.lastUsedAt.value, e.recordedAt) {
            LessTransitive(x.recordedAt, s.lastUsedAt.value, e.recordedAt);
          }
        }
      }
      if t.lastUsedAt == s.lastUsedAt {
        var x :| x in used && x.recordedAt == s.lastUsedAt.value;
        assert x in used + [e];
      }
    } else {
      assert UsedOf(events + [e]) == used;
    }
  }

  // ---------- what is kept ----------

  /** The number of events of the agent at positions from onwards. */
  function CountFrom(h: seq<RetrievalEvent>, from: nat, agent: string): nat {
    if |h| <= from then 0
    else
      var n := |h| - 1;
      CountFrom(h[..n], from, agent) + if h[n].agentId == agent then 1 else 0
  }

  ghost predicate Ascends(idx: seq<nat>, bound: nat) {
    && (forall i, j :: 0 <= i < j < |idx| ==> idx[i] < idx[j])
    && forall i :: 0 <= i < |idx| ==> idx[i] < bound
  }

  /** The store holds the history's events at positions idx, in order. */
  ghost predicate Holds(h: seq<RetrievalEvent>, idx: seq<nat>, store: seq<RetrievalEvent>) {
    Ascends(idx, |h|) && |idx| == |store| && forall k :: 0 <= k < |idx| ==> store[k] == h[idx[k]]
  }

  /** With an event, every later one of the same agent is kept. */
  ghost predicate KeepsLater(h: seq<RetrievalEvent>, idx: seq<nat>) {
    forall i: nat, j: nat :: i in idx && i < j < |h| && h[j].agentId == h[i].agentId ==> j in idx
  }

  /** An event among the last `global` of all and the last `cap` of its agent. */
  ghost predicate Recent(h: seq<RetrievalEvent>, i: nat, cap: nat, global: nat) {
    i < |h| && |h| - i <= global && CountFrom(h, i, h[i].agentId) <= cap
  }

  ghost predicate KeepsRecent(h: seq<RetrievalEvent>, idx: seq<nat>, cap: nat, global: nat) {
    forall i: nat :: Recent(h, i, cap, global) ==> i in idx
  }

  /** The positions of a store that has lost nothing it should have kept. */
  ghost predicate Faithful(h: seq<RetrievalEvent>, idx: seq<nat>, store: seq<RetrievalEvent>, cap: nat, global: nat) {
    Holds(h, idx, store) && KeepsLater(h, idx) && KeepsRecent(h, idx, cap, global)
  }

  lemma {:induction false} AscendsSpread(idx: seq<nat>, bound: nat, k: nat)
    requires Ascends(idx, bound) && k < |idx|
    ensures idx[k] + (|idx| - k) <= bound
    decreases |idx| - k
  {
    if k + 1 < |idx| {
      AscendsSpread(idx, bound, k + 1);
    }
  }

  /** The store cannot hold more events of an agent than the history has from the first one on. */
  lemma {:induction false} StoredCount(h: seq<RetrievalEvent>, idx: seq<nat>, store: seq<RetrievalEvent>, from: nat, agent: string)
    requires Holds(h, idx, store)
    requires forall k :: 0 <= k < |store| && store[k].agentId == agent ==> idx[k] >= from
    ensures |For(store, agent)| <= CountFrom(h, from, agent)
    decreases |h|
  {
    if store != [] {
      var n, m := |h| - 1, |store| - 1;
      AscendsSpread(idx, |h|, 0);
      if idx[m] == n {
        StoredCount(h[..n], idx[..m], store[..m], from, agent);
      } else {
        StoredCount(h[..n], idx, store, from, agent);
      }
    }
  }

  lemma WithoutAt<T>(s: seq<T>, k: nat)
    requires k < |s|
    ensures |Without(s, k)| == |s| - 1
    ensures forall j :: 0 <= j < |s| - 1 ==> Without(s, k)[j] == s[if j < k then j else j + 1]
  {
  }

  /** Dropping one kept position drops just that one. */
  lemma DropPosition(idx: seq<nat>, bound: nat, k: nat)
    requires Ascends(idx, bound) && k < |idx|
    ensures Ascends(Without(idx, k), bound)
    ensures forall i: nat :: i in Without(idx, k) <==> i in idx && i != idx[k]
  {
    hide Without;
    WithoutAt(idx, k);
    var rest := Without(idx, k);
    forall i: nat
      ensures i in rest <==> i in idx && i != idx[k]
    {
      if i in idx && i != idx[k] {
        var j :| 0 <= j < |idx| && idx[j] == i;
        assert i == rest[if j < k then j else j - 1];
      }
    }
  }

  lemma DropOne(h: seq<RetrievalEvent>, idx: seq<nat>, store: seq<RetrievalEvent>, k: nat)
    requires Holds(h, idx, store) && k < |idx|
    ensures Holds(h, Without(idx, k), Without(store, k))
    ensures forall i: nat :: i in Without(idx, k) <==> i in idx && i != idx[k]
  {
    hide Without, Ascends;
    DropPosition(idx, |h|, k);
    WithoutAt(idx, k);
    WithoutAt(store, k);
    assert idx[k] < |h| && forall j :: 0 <= j < |idx| ==> idx[j] < |h| by { InBounds(idx, |h|); }
  }

  lemma InBounds(idx: seq<nat>, bound: nat)
    requires Ascends(idx, bound)
    ensures forall j :: 0 <= j < |idx| ==> idx[j] < bound
  {
  }

  /** What is recent once e has come was recent before. */
  lemma RecentBefore(h: seq<RetrievalEvent>, e: RetrievalEvent, i: nat, cap: nat, global: nat)
    requires i < |h| && Recent(h + [e], i, cap, global)
    ensures Recent(h, i, cap, global)
    ensures h[i].agentId == e.agentId ==> CountFrom(h, i, e.agentId) < cap
    ensures |h| - i < global
  {
  }

  /** Positions that may not be lost when e arrives. */
  ghost predicate KeepsRecentFor(h: seq<RetrievalEvent>, e: RetrievalEvent, idx: seq<nat>, cap: nat, global: nat) {
    forall i: nat :: i < |h| && Recent(h + [e], i, cap, global) ==> i in idx
  }

  /** Evicting the agent's own oldest event when it is at its cap loses nothing recent. */
  lemma EvictOwn(h: seq<RetrievalEvent>, idx: seq<nat>, store: seq<RetrievalEvent>, e: RetrievalEvent, cap: nat, global: nat)
    requires Faithful(h, idx, store, cap, global) && |For(store, e.agentId)| >= cap
    ensures var k := Oldest(store, e.agentId);
      && Holds(h, Without(idx, k), Without(store, k))
      && KeepsLater(h, Without(idx, k)) && KeepsRecentFor(h, e, Without(idx, k), cap, global)
  {
    hide Recent, CountFrom;
    var k := Oldest(store, e.agentId);
    forall i: nat | i < |h| && Recent(h + [e], i, cap, global)
      ensures i in idx && (k < |store| ==> i != idx[k])
    {
      RecentBefore(h, e, i, cap, global);
      if k < |store| && i == idx[k] {
        StoredCount(h, idx, store, i, e.agentId);
      }
    }
    if k < |store| {
      DropOne(h, idx, store, k);
      DropOldestKeepsLater(h, idx, store, e.agentId);
    }
  }

  lemma DropOldestKeepsLater(h: seq<RetrievalEvent>, idx: seq<nat>, store: seq<RetrievalEvent>, agent: string)
    requires Holds(h, idx, store) && KeepsLater(h, idx) && Oldest(store, agent) < |store|
    ensures KeepsLater(h, Without(idx, Oldest(store, agent)))
  {
    var k := Oldest(store, agent);
    DropOne(h, idx, store, k);
    forall i: nat, j: nat | i in Without(idx, k) && i < j < |h| && h[j].agentId == h[i].agentId
      ensures j in Without(idx, k)
    {
      var at :| 0 <= at < |idx| && idx[at] == i;
      if j == idx[k] {
        assert false;
      }
    }
  }

  /** Evicting the oldest event of all when the store is full loses nothing recent. */
  lemma EvictFront(h: seq<RetrievalEvent>, idx: seq<nat>, store: seq<RetrievalEvent>, e: RetrievalEvent, cap: nat, global: nat)
    requires Holds(h, idx, store) && KeepsLater(h, idx) && KeepsRecentFor(h, e, idx, cap, global)
    requires |store| >= global && store != []
    ensures Holds(h, idx[1..], store[1..]) && KeepsLater(h, idx[1..]) && KeepsRecentFor(h, e, idx[1..], cap, global)
  {
    hide Recent, CountFrom;
    DropOne(h, idx, store, 0);
    assert Without(idx, 0) == idx[1..] && Without(store, 0) == store[1..];
    AscendsSpread(idx, |h|, 0);
    forall i: nat | i < |h| && Recent(h + [e], i, cap, global)
      ensures i in idx[1..]
    {
      RecentBefore(h, e, i, cap, global);
    }
    forall i: nat, j: nat | i in idx[1..] && i < j < |h| && h[j].agentId == h[i].agentId
      ensures j in idx[1..]
    {
      var at :| 0 <= at < |idx| && idx[at] == i;
    }
  }

  /** Appending e after making room leaves a faithful store. */
  lemma PushKeeps(h: seq<RetrievalEvent>, idx: seq<nat>, store: seq<RetrievalEvent>, e: RetrievalEvent, cap: nat, global: nat)
    requires Holds(h, idx, store) && KeepsLater(h, idx) && KeepsRecentFor(h, e, idx, cap, global)
    ensures Faithful(h + [e], idx + [|h|], store + [e], cap, global)
  {
    hide Recent, CountFrom;
    var h', idx' := h + [e], idx + [|h|];
    forall i: nat | Recent(h', i, cap, global)
      ensures i in idx'
    {
      RecentInRange(h', i, cap, global);
    }
    forall i: nat, j: nat | i in idx' && i < j < |h'| && h'[j].agentId == h'[i].agentId
      ensures j in idx'
    {
      assert idx'[|idx|] == |h|;
    }
  }

  lemma RecentInRange(h: seq<RetrievalEvent>, i: nat, cap: nat, global: nat)
    requires Recent(h, i, cap, global)
    ensures i < |h|
  {
  }

  lemma AdmitKeeps(h: seq<RetrievalEvent>, idx: seq<nat>, store: seq<RetrievalEvent>, e: RetrievalEvent, cap: nat, global: nat)
    requires Faithful(h, idx, store, cap, global)
    ensures exists idx' :: Faithful(h + [e], idx', Admit(store, e, cap, global), cap, global)
  {
    hide Recent, For, Holds, KeepsLater;
    var k := Oldest(store, e.agentId);
    HoldsSize(h, idx, store);
    var own, ownIdx := store, idx;
    if |For(store, e.agentId)| >= cap {
      EvictOwn(h, idx, store, e, cap, global);
      own, ownIdx := Without(store, k), Without(idx, k);
    } else {
      forall i: nat | i < |h| && Recent(h + [e], i, cap, global)
        ensures i in idx
      {
        RecentBefore(h, e, i, cap, global);
      }
    }
    if |own| >= global && own != [] {
      HoldsSize(h, ownIdx, own);
      EvictFront(h, ownIdx, own, e, cap, global);
      own, ownIdx := own[1..], ownIdx[1..];
    }
    PushKeeps(h, ownIdx, own, e, cap, global);
    assert Admit(store, e, cap, global) == own + [e];
  }

  lemma HoldsSize(h: seq<RetrievalEvent>, idx: seq<nat>, store: seq<RetrievalEvent>)
    requires Holds(h, idx, store)
    ensures |idx| == |store|
  {
  }

  /**
   After any submissions, the store is an ordered selection of the accepted history that holds
   every recent event and, with any event, all later ones of its agent.
   */
  lemma {:induction false} StoreIsFaithful(submitted: seq<RetrievalEvent>, cap: nat, global: nat)
    ensures exists idx :: Faithful(Accepted(submitted), idx, Stored(submitted, cap, global), cap, global)
  {
    hide Faithful, Admit;
    if submitted == [] {
      NothingStored(cap, global);
      assert Faithful(Accepted(submitted), [], Stored(submitted, cap, global), cap, global);
    } else {
      var n := |submitted| - 1;
      StoreIsFaithful(submitted[..n], cap, global);
      var h, store := Accepted(submitted[..n]), Stored(submitted[..n], cap, global);
      var idx :| Faithful(h, idx, store, cap, global);
      if Validate(submitted[n]).Ok? {
        var e := Truncated(submitted[n]);
        AdmitKeeps(h, idx, store, e, cap, global);
        assert Accepted(submitted) == h + [e] && Stored(submitted, cap, global) == Admit(store, e, cap, global);
      } else {
        assert Accepted(submitted) == h + [] == h && Stored(submitted, cap, global) == store;
        assert Faithful(Accepted(submitted), idx, Stored(submitted, cap, global), cap, global);
      }
    }
  }

  lemma NothingStored(cap: nat, global: nat)
    ensures Faithful([], [], [], cap, global)
  {
  }

  // ---------- bounds and suffixes ----------

  function AtLeastOne(n: nat): nat { if n == 0 then 1 else n }

  lemma RoomOfAgent(store: seq<RetrievalEvent>, agent: string, other: string, cap: nat, global: nat)
    ensures SuffixOf(For(Room(store, agent, cap, global), other), For(store, other))
    ensures |For(store, agent)| <= AtLeastOne(cap) ==> |For(Room(store, agent, cap, global), agent)| < AtLeastOne(cap)
    ensures |store| <= AtLeastOne(global) ==> |Room(store, agent, cap, global)| < AtLeastOne(global)
  {
    hide For, SuffixOf;
    var k := Oldest(store, agent);
    var own := if |For(store, agent)| >= cap then Without(store, k) else store;
    NoneBelow(store, agent);
    SuffixRefl(For(store, other));
    if k < |store| {
      WithoutFirst(store, k, agent);
      WithoutFirst(store, k, other);
    }
    assert SuffixOf(For(own, other), For(store, other));
    if own != [] {
      WithoutHead(own, agent);
      WithoutHead(own, other);
      SuffixTrans(For(own[1..], other), For(own, other), For(store, other));
    }
  }

  /** An agent without an oldest event has none. */
  lemma {:induction false} NoneBelow(store: seq<RetrievalEvent>, agent: string)
    ensures Oldest(store, agent) == |store| ==> For(store, agent) == []
  {
    if Oldest(store, agent) == |store| {
      NoneOf(store, agent);
    }
  }

  lemma {:induction false} NoneOf(store: seq<RetrievalEvent>, agent: string)
    requires forall j :: 0 <= j < |store| ==> store[j].agentId != agent
    ensures For(store, agent) == []
  {
    if store != [] {
      NoneOf(store[..|store| - 1], agent);
    }
  }

  /** Removing the agent's oldest event removes the head of its events and of no one else's. */
  lemma WithoutFirst(store: seq<RetrievalEvent>, k: nat, agent: string)
    requires k < |store| && k == Oldest(store, store[k].agentId)
    ensures store[k].agentId == agent ==> For(store, agent) != []
    ensures For(Without(store, k), agent) == if store[k].agentId == agent then For(store, agent)[1..] else For(store, agent)
    ensures SuffixOf(For(Without(store, k), agent), For(store, agent))
  {
    hide For;
    var a, b := store[..k], store[k + 1..];
    assert store == (a + [store[k]]) + b && Without(store, k) == a + b;
    ForConcat(a + [store[k]], b, agent);
    ForConcat(a, b, agent);
    ForAppend(a, store[k], agent);
    if store[k].agentId == agent {
      NoneOf(a, agent);
      assert For(store, agent) == [store[k]] + For(b, agent);
    }
  }

  lemma WithoutHead(store: seq<RetrievalEvent>, agent: string)
    requires store != []
    ensures SuffixOf(For(store[1..], agent), For(store, agent))
    ensures |For(store[1..], agent)| <= |For(store, agent)|
  {
    hide For;
    ForConcat(store[..1], store[1..], agent);
    assert store == store[..1] + store[1..];
  }

  lemma SuffixRefl<T>(s: seq<T>)
    ensures SuffixOf(s, s)
  {
  }

  lemma SuffixTrans<T>(a: seq<T>, b: seq<T>, c: seq<T>)
    requires SuffixOf(a, b) && SuffixOf(b, c)
    ensures SuffixOf(a, c)
  {
    assert c[|c| - |b|..][|b| - |a|..] == c[|c| - |a|..];
  }

  lemma SuffixAppend<T>(a: seq<T>, b: seq<T>, c: seq<T>)
    requires SuffixOf(a, b)
    ensures SuffixOf(a + c, b + c)
  {
  }

  /**
   From an empty store, any submissions keep the store within the global cap, each agent within
   its cap, each agent's events the newest of its accepted ones in order, and the newest
   accepted event last. A cap of zero acts as one.
   */
  lemma {:induction false} StoreIsBounded(submitted: seq<RetrievalEvent>, cap: nat, global: nat, agent: string)
    ensures |Stored(submitted, cap, global)| <= AtLeastOne(global)
    ensures |For(Stored(submitted, cap, global), agent)| <= AtLeastOne(cap)
    ensures SuffixOf(For(Stored(submitted, cap, global), agent), For(Accepted(submitted), agent))
    ensures var h, store := Accepted(submitted), Stored(submitted, cap, global);
      h != [] ==> store != [] && store[|store| - 1] == h[|h| - 1]
  {
    hide For, SuffixOf, Room, AtLeastOne;
    if submitted == [] {
      SuffixRefl(For([], agent));
      assert For([], agent) == [] by { NoneOf([], agent); }
    } else {
      var n := |submitted| - 1;
      StoreIsBounded(submitted[..n], cap, global, agent);
      var h, store := Accepted(submitted[..n]), Stored(submitted[..n], cap, global);
      if Validate(submitted[n]).Ok? {
        var e := Truncated(submitted[n]);
        StoreIsBounded(submitted[..n], cap, global, e.agentId);
        RoomOfAgent(store, e.agentId, agent, cap, global);
        RoomOfAgent(store, e.agentId, e.agentId, cap, global);
        var room := Room(store, e.agentId, cap, global);
        ForAppend(room, e, agent);
        ForAppend(h, e, agent);
        SuffixTrans(For(room, agent), For(store, agent), For(h, agent));
        SuffixAppend(For(room, agent), For(h, agent), if e.agentId == agent then [e] else []);
        assert Accepted(submitted) == h + [e] && Stored(submitted, cap, global) == room + [e];
        SuffixLength(For(room, agent), For(store, agent));
      } else {
        assert Accepted(submitted) == h + [] == h;
      }
    }
  }

  lemma SuffixLength<T>(a: seq<T>, b: seq<T>)
    requires SuffixOf(a, b)
    ensures |a| <= |b|
  {
  }
}
