/**
 The in-memory price-alert store and the stages of one evaluation run
 (crates/tdw-alerts/src/lib.rs, crates/tdw-alert-evaluator/src/lib.rs).
 */
module Alerts {
  import opened StringOrder

  datatype Direction = Above | Below

  datatype PriceAlert = PriceAlert(
    id: string,
    ownerId: string,
    symbol: string,
    targetPrice: real,
    condition: Direction,
    active: bool,
    triggered: bool,
    expiresAt: int,
    createdAt: int,
    updatedAt: int)

  // ---------- the store as a list of records ----------

  predicate IsEligible(a: PriceAlert, now: int) { a.active && !a.triggered && a.expiresAt > now }

  function Eligible(records: seq<PriceAlert>, now: int): (r: seq<PriceAlert>)
    ensures forall a :: a in r <==> a in records && IsEligible(a, now)
  {
    if records == [] then []
    else
      var n := |records| - 1;
      assert records == records[..n] + [records[n]];
      Eligible(records[..n], now) + if IsEligible(records[n], now) then [records[n]] else []
  }

  /** The position of the first record with this id, or the length when there is none. */
  function Find(records: seq<PriceAlert>, id: string): (k: nat)
    ensures k <= |records|
    ensures forall j :: 0 <= j < k ==> records[j].id != id
    ensures k < |records| ==> records[k].id == id
  {
    if records == [] then 0
    else if records[0].id == id then 0
    else 1 + Find(records[1..], id)
  }

  lemma FindUnique(records: seq<PriceAlert>, id: string, k: nat)
    requires k <= |records| && (forall j :: 0 <= j < k ==> records[j].id != id)
    requires k < |records| ==> records[k].id == id
    ensures Find(records, id) == k
  {
  }

  function Retained(records: seq<PriceAlert>, id: string): (r: seq<PriceAlert>)
    ensures |r| <= |records|
    ensures forall a :: a in r <==> a in records && a.id != id
    ensures |r| < |records| <==> exists a :: a in records && a.id == id
  {
    if records == [] then []
    else
      var n := |records| - 1;
      assert records == records[..n] + [records[n]];
      Retained(records[..n], id) + if records[n].id != id then [records[n]] else []
  }

  lemma RetainedStep(rows: seq<PriceAlert>, i: nat, id: string)
    requires i < |rows|
    ensures Retained(rows[..i + 1], id) == Retained(rows[..i], id) + if rows[i].id != id then [rows[i]] else []
  {
    assert rows[..i + 1][..i] == rows[..i];
  }

  predicate CanFire(records: seq<PriceAlert>, id: string, now: int) {
    var k := Find(records, id);
    k < |records| && IsEligible(records[k], now)
  }

  function FiredRecord(a: PriceAlert, now: int): PriceAlert {
    a.(triggered := true, active := false, updatedAt := now)
  }

  function AfterFiring(records: seq<PriceAlert>, id: string, now: int): (r: seq<PriceAlert>)
    ensures |r| == |records|
  {
    if CanFire(records, id, now) then records[Find(records, id) := FiredRecord(records[Find(records, id)], now)] else records
  }

  function AfterSetActive(records: seq<PriceAlert>, id: string, active: bool): (r: seq<PriceAlert>)
    ensures |r| == |records|
  {
    var k := Find(records, id);
    if k < |records| then records[k := records[k].(active := active)] else records
  }

  class InMemoryAlertStore {
    var records: seq<PriceAlert>

    constructor ()
      ensures records == []
    {
      records := [];
    }

    method Insert(alert: PriceAlert)
      modifies this
      ensures records == old(records) + [alert]
    {
      records := records + [alert];
    }

    method DeleteById(id: string) returns (deleted: bool)
      modifies this
      ensures records == Retained(old(records), id)
      ensures deleted <==> exists a :: a in old(records) && a.id == id
    {
      var before := |records|;
      records := WithoutId(records, id);
      deleted := |records| < before;
    }

    /** The loop of `retain`. */
    static method WithoutId(rows: seq<PriceAlert>, id: string) returns (kept: seq<PriceAlert>)
      ensures kept == Retained(rows, id)
    {
      hide Retained;
      kept := [];
      for i := 0 to |rows|
        invariant kept == Retained(rows[..i], id)
      {
        RetainedStep(rows, i, id);
        if rows[i].id != id {
          kept := kept + [rows[i]];
        }
      }
      assert rows[..|rows|] == rows;
    }

    method Search(id: string) returns (k: nat)
      ensures k == Find(records, id)
    {
      k := 0;
      while k < |records| && records[k].id != id
        invariant k <= |records| && forall j :: 0 <= j < k ==> records[j].id != id
      {
        k := k + 1;
      }
      FindUnique(records, id, k);
    }

    method SetActive(id: string, active: bool) returns (found: bool)
      modifies this
      ensures records == AfterSetActive(old(records), id, active)
      ensures |records| == |old(records)| && forall k :: 0 <= k < |records| ==>
        records[k] == if old(records)[k].id == id && (forall j :: 0 <= j < k ==> old(records)[j].id != id)
                      then old(records)[k].(active := active) else old(records)[k]
      ensures found <==> exists a :: a in old(records) && a.id == id
    {
      var k := Search(id);
      found := k < |records|;
      if found {
        assert records[k] in records;
        records := records[k := records[k].(active := active)];
      }
    }

    method ListEligible(now: int) returns (rows: seq<PriceAlert>)
      ensures rows == Eligible(records, now)
    {
      rows := [];
      for i := 0 to |records|
        invariant rows == Eligible(records[..i], now)
      {
        assert records[..i + 1][..i] == records[..i];
        var alert := records[i];
        if alert.active && !alert.triggered && alert.expiresAt > now {
          rows := rows + [alert];
        }
      }
      assert records[..|records|] == records;
    }

    method MarkFired(id: string, now: int) returns (fired: bool)
      modifies this
      ensures fired == CanFire(old(records), id, now)
      ensures records == AfterFiring(old(records), id, now)
      ensures fired <==> exists k :: 0 <= k < |records| && old(records)[k] != records[k]
      ensures |records| == |old(records)| && forall k :: 0 <= k < |records| ==>
        var a := old(records)[k];
        records[k] ==
          if a.id == id && a.active && !a.triggered && now < a.expiresAt && (forall j :: 0 <= j < k ==> old(records)[j].id != id)
          then a.(triggered := true, active := false, updatedAt := now) else a
    {
      var k := Search(id);
      if k < |records| && records[k].active && !records[k].triggered && records[k].expiresAt > now {
        records := records[k := FiredRecord(records[k], now)];
        fired := true;
      } else {
        fired := false;
      }
    }
  }

  /** Listing keeps the order and takes a record exactly on the condition written out. */
  lemma EligibleIsFilter(s: seq<PriceAlert>, x: PriceAlert, now: int)
    ensures Eligible([], now) == []
    ensures Eligible(s + [x], now) == Eligible(s, now) + if x.active && !x.triggered && now < x.expiresAt then [x] else []
  {
    assert (s + [x])[..|s|] == s;
  }

  /** Deleting keeps the order and drops exactly the records of the id. */
  lemma RetainedIsFilter(s: seq<PriceAlert>, x: PriceAlert, id: string)
    ensures Retained([], id) == []
    ensures Retained(s + [x], id) == Retained(s, id) + if x.id != id then [x] else []
  {
    assert (s + [x])[..|s|] == s;
  }

  // ---------- the stages of a run ----------

  predicate Meets(a: PriceAlert, price: real) {
    match a.condition
    case Above => price >= a.targetPrice
    case Below => price <= a.targetPrice
  }

  predicate Fires(a: PriceAlert, quotes: map<string, real>) {
    a.symbol in quotes && Meets(a, quotes[a.symbol])
  }

  function SymbolsOf(eligible: seq<PriceAlert>): set<string> { set a | a in eligible :: a.symbol }

  /** The quotes that the source could answer for the symbols asked. */
  function QuotesFor(eligible: seq<PriceAlert>, available: map<string, real>): map<string, real> {
    map s | s in available && s in SymbolsOf(eligible) :: available[s]
  }

  method FetchQuotes(eligible: seq<PriceAlert>, available: map<string, real>) returns (quotes: map<string, real>)
    ensures quotes == QuotesFor(eligible, available)
  {
    hide Ascending, SymbolsOf, Answers;
    var symbols := Ascending(SymbolsOf(eligible));
    quotes := map[];
    NoAnswers(available);
    for i := 0 to |symbols|
      invariant quotes == Answers(symbols[..i], available)
    {
      AnswerStep(symbols, i, available);
      if symbols[i] in available {
        quotes := quotes[symbols[i] := available[symbols[i]]];
      }
    }
    assert symbols[..|symbols|] == symbols;
    AllAnswers(symbols, eligible, available);
  }

  lemma QuotesAre(eligible: seq<PriceAlert>, available: map<string, real>)
    ensures forall symbol ::
      && (symbol in QuotesFor(eligible, available) <==> symbol in available && exists a :: a in eligible && a.symbol == symbol)
      && (symbol in QuotesFor(eligible, available) ==> QuotesFor(eligible, available)[symbol] == available[symbol])
  {
  }

  function Answers(symbols: seq<string>, available: map<string, real>): map<string, real> {
    map s | s in available && s in symbols :: available[s]
  }

  lemma NoAnswers(available: map<string, real>)
    ensures Answers([], available) == map[]
  {
  }

  lemma AnswerStep(symbols: seq<string>, i: nat, available: map<string, real>)
    requires i < |symbols|
    ensures Answers(symbols[..i + 1], available) ==
      if symbols[i] in available then Answers(symbols[..i], available)[symbols[i] := available[symbols[i]]]
      else Answers(symbols[..i], available)
  {
    assert symbols[..i + 1] == symbols[..i] + [symbols[i]];
  }

  lemma AllAnswers(symbols: seq<string>, eligible: seq<PriceAlert>, available: map<string, real>)
    requires forall s :: s in symbols <==> s in SymbolsOf(eligible)
    ensures Answers(symbols, available) == QuotesFor(eligible, available)
  {
    hide SymbolsOf;
  }

  /** Ids whose alert fires, in the order of the snapshot. */
  function FiringIds(eligible: seq<PriceAlert>, quotes: map<string, real>): (r: seq<string>)
    ensures forall id :: id in r ==> exists a :: a in eligible && a.id == id && Fires(a, quotes)
  {
    if eligible == [] then []
    else
      var n := |eligible| - 1;
      assert eligible == eligible[..n] + [eligible[n]];
      FiringIds(eligible[..n], quotes) + if Fires(eligible[n], quotes) then [eligible[n].id] else []
  }

  /** Judging keeps the order and takes an alert exactly when its quote is at or beyond its target. */
  lemma FiringIsFilter(s: seq<PriceAlert>, x: PriceAlert, quotes: map<string, real>)
    ensures FiringIds([], quotes) == []
    ensures FiringIds(s + [x], quotes) == FiringIds(s, quotes) +
      if x.symbol in quotes && (if x.condition == Above then quotes[x.symbol] >= x.targetPrice else quotes[x.symbol] <= x.targetPrice)
      then [x.id] else []
  {
    assert (s + [x])[..|s|] == s;
  }

  predicate InOrder(ids: seq<string>) { forall i, j :: 0 <= i < j < |ids| ==> AtMost(ids[i], ids[j]) }

  function Placed(id: string, ids: seq<string>): (r: seq<string>)
    ensures multiset(r) == multiset(ids) + multiset{id}
    ensures forall x :: x in r <==> x in ids || x == id
  {
    if ids == [] then [id]
    else if AtMost(id, ids[0]) then
      [id] + ids
    else
      assert ids == [ids[0]] + ids[1..];
      [ids[0]] + Placed(id, ids[1..])
  }

  function SortedIds(ids: seq<string>): (r: seq<string>)
    ensures multiset(r) == multiset(ids)
    ensures forall x :: x in r <==> x in ids
  {
    if ids == [] then []
    else
      assert ids == [ids[0]] + ids[1..];
      Placed(ids[0], SortedIds(ids[1..]))
  }

  lemma {:induction false} PlacedInOrder(id: string, ids: seq<string>)
    requires InOrder(ids)
    ensures InOrder(Placed(id, ids))
  {
    hide Less;
    if ids != [] {
      var head, tail := ids[0], ids[1..];
      LessTotal(id, head);
      if AtMost(id, head) {
        forall x | x in ids
          ensures AtMost(id, x)
        {
          var j :| 0 <= j < |ids| && ids[j] == x;
          if Less(id, head) && Less(head, x) {
            LessTransitive(id, head, x);
          }
        }
      } else {
        PlacedInOrder(id, tail);
        var rest := Placed(id, tail);
        forall j | 0 <= j < |rest|
          ensures AtMost(head, rest[j])
        {
          assert rest[j] in rest;
          if rest[j] in tail {
            var k :| 0 <= k < |tail| && tail[k] == rest[j];
            assert ids[k + 1] == rest[j];
          }
        }
      }
    }
  }

  lemma {:induction false} SortedIdsInOrder(ids: seq<string>)
    ensures InOrder(SortedIds(ids))
  {
    if ids != [] {
      SortedIdsInOrder(ids[1..]);
      PlacedInOrder(ids[0], SortedIds(ids[1..]));
    }
  }

  method Evaluate(eligible: seq<PriceAlert>, quotes: map<string, real>) returns (firedIds: seq<string>)
    ensures firedIds == SortedIds(FiringIds(eligible, quotes))
    ensures InOrder(firedIds)
  {
    var ids := [];
    for i := 0 to |eligible|
      invariant ids == FiringIds(eligible[..i], quotes)
    {
      assert eligible[..i + 1][..i] == eligible[..i];
      var alert := eligible[i];
      if alert.symbol in quotes {
        var price := quotes[alert.symbol];
        var fires := if alert.condition.Above? then price >= alert.targetPrice else price <= alert.targetPrice;
        if fires {
          ids := ids + [alert.id];
        }
      }
    }
    assert eligible[..|eligible|] == eligible;
    firedIds := SortedIds(ids);
    SortedIdsInOrder(ids);
  }

  // ---------- the target price itself ----------

  /** The documented rule: strictly above or strictly below the target. */
  predicate StrictlyMeets(a: PriceAlert, price: real) {
    match a.condition
    case Above => price > a.targetPrice
    case Below => price < a.targetPrice
  }

  predicate StrictlyFires(a: PriceAlert, quotes: map<string, real>) {
    a.symbol in quotes && StrictlyMeets(a, quotes[a.symbol])
  }

  predicate AtTarget(a: PriceAlert, quotes: map<string, real>) {
    a.symbol in quotes && quotes[a.symbol] == a.targetPrice
  }

  /** The evaluator departs from the documented rule exactly at the target price, where it fires. */
  lemma FiresAtTarget(a: PriceAlert, quotes: map<string, real>)
    ensures Fires(a, quotes) <==> StrictlyFires(a, quotes) || AtTarget(a, quotes)
    ensures !(StrictlyFires(a, quotes) && AtTarget(a, quotes))
  {
  }

  function StrictIds(eligible: seq<PriceAlert>, quotes: map<string, real>): seq<string> {
    if eligible == [] then []
    else
      var n := |eligible| - 1;
      StrictIds(eligible[..n], quotes) + if StrictlyFires(eligible[n], quotes) then [eligible[n].id] else []
  }

  ghost predicate NoneAtTarget(eligible: seq<PriceAlert>, quotes: map<string, real>) {
    forall i :: 0 <= i < |eligible| ==> !AtTarget(eligible[i], quotes)
  }

  lemma {:induction false} StrictIdsFewer(eligible: seq<PriceAlert>, quotes: map<string, real>)
    ensures |StrictIds(eligible, quotes)| <= |FiringIds(eligible, quotes)|
    ensures NoneAtTarget(eligible, quotes) ==> StrictIds(eligible, quotes) == FiringIds(eligible, quotes)
    ensures !NoneAtTarget(eligible, quotes) ==> |StrictIds(eligible, quotes)| < |FiringIds(eligible, quotes)|
  {
    hide Fires, StrictlyFires, AtTarget;
    if eligible != [] {
      var n := |eligible| - 1;
      StrictIdsFewer(eligible[..n], quotes);
      FiresAtTarget(eligible[n], quotes);
    }
  }

  /**
   What evaluation returns is what the documented rule would return exactly when no alert of the
   snapshot is quoted at its target.
   */
  lemma EvaluatesStrictlyIff(eligible: seq<PriceAlert>, quotes: map<string, real>)
    ensures SortedIds(FiringIds(eligible, quotes)) == SortedIds(StrictIds(eligible, quotes)) <==> NoneAtTarget(eligible, quotes)
  {
    StrictIdsFewer(eligible, quotes);
    SortedSize(FiringIds(eligible, quotes));
    SortedSize(StrictIds(eligible, quotes));
  }

  lemma SortedSize(ids: seq<string>)
    ensures |SortedIds(ids)| == |ids|
  {
    assert |multiset(SortedIds(ids))| == |multiset(ids)|;
  }

  /** An alert above 100 fires at a quote of exactly 100, against the documented rule. */
  lemma FiresExactlyAtTarget(a: PriceAlert)
    requires a.condition == Above && a.targetPrice == 100.0 && a.symbol == "s"
    ensures SortedIds(FiringIds([a], map["s" := 100.0])) == [a.id] && StrictIds([a], map["s" := 100.0]) == []
  {
    var quotes := map["s" := 100.0];
    assert [a][..0] == [] && FiringIds([], quotes) == [] && StrictIds([], quotes) == [];
    assert SortedIds([]) == [] && Placed(a.id, []) == [a.id];
  }
}
