/**
 The evidence-driven merge of the improvement backlog, iterated over scans
 (xtask/src/improve_scan.rs).
 */
module Backlog {
  import opened Results
  import opened StringOrder

  const BUCKET_ORDER: seq<string> := ["provider-wiring", "lint-debt", "test-gaps", "hygiene"]

  datatype Item = Item(
    id: string,
    bucket: string,
    crates: seq<string>,
    title: string,
    evidence: string,
    effort: string,
    status: string,
    count: nat,
    reopenedFrom: Option<string>)

  /** Position among the known buckets; unknown buckets come last. */
  function BucketRank(bucket: string): (r: nat)
    ensures r <= |BUCKET_ORDER|
    ensures r < |BUCKET_ORDER| ==> BUCKET_ORDER[r] == bucket
    ensures r == |BUCKET_ORDER| <==> bucket !in BUCKET_ORDER
  {
    if bucket == BUCKET_ORDER[0] then 0
    else if bucket == BUCKET_ORDER[1] then 1
    else if bucket == BUCKET_ORDER[2] then 2
    else if bucket == BUCKET_ORDER[3] then 3
    else 4
  }

  // ---------- the ranking ----------

  /** Bucket rank ascending, then count descending, then id ascending. */
  predicate Precedes(a: Item, b: Item) {
    if BucketRank(a.bucket) != BucketRank(b.bucket) then BucketRank(a.bucket) < BucketRank(b.bucket)
    else if a.count != b.count then a.count > b.count
    else AtMost(a.id, b.id)
  }

  lemma PrecedesTotal(a: Item, b: Item)
    ensures Precedes(a, b) || Precedes(b, a)
  {
    hide Less;
    LessTotal(a.id, b.id);
  }

  lemma PrecedesTransitive(a: Item, b: Item, c: Item)
    requires Precedes(a, b) && Precedes(b, c)
    ensures Precedes(a, c)
  {
    hide Less, BucketRank;
    if Less(a.id, b.id) && Less(b.id, c.id) {
      LessTransitive(a.id, b.id, c.id);
    }
  }

  lemma PrecedesAntisymmetric(a: Item, b: Item)
    requires Precedes(a, b) && Precedes(b, a)
    ensures a.id == b.id
  {
    hide Less, BucketRank;
    if a.id != b.id {
      LessTransitive(a.id, b.id, a.id);
      LessIrreflexive(a.id);
    }
  }

  predicate Ranked(s: seq<Item>) { forall i, j :: 0 <= i < j < |s| ==> Precedes(s[i], s[j]) }

  function Placed(x: Item, s: seq<Item>): (r: seq<Item>)
    ensures multiset(r) == multiset(s) + multiset{x}
    ensures forall y :: y in r <==> y in s || y == x
  {
    if s == [] then [x]
    else if Precedes(x, s[0]) then [x] + s
    else
      assert s == [s[0]] + s[1..];
      [s[0]] + Placed(x, s[1..])
  }

  /** The stable sort of the merged list. */
  function Arranged(s: seq<Item>): (r: seq<Item>)
    ensures multiset(r) == multiset(s)
    ensures forall y :: y in r <==> y in s
  {
    if s == [] then []
    else
      assert s == [s[0]] + s[1..];
      Placed(s[0], Arranged(s[1..]))
  }

  lemma {:induction false} PlacedRanked(x: Item, s: seq<Item>)
    requires Ranked(s)
    ensures Ranked(Placed(x, s))
  {
    hide Precedes;
    if s != [] {
      var head, tail := s[0], s[1..];
      if Precedes(x, head) {
        forall j | 0 <= j < |s|
          ensures Precedes(x, s[j])
        {
          if j > 0 {
            PrecedesTransitive(x, head, s[j]);
          }
        }
      } else {
        PrecedesTotal(x, head);
        PlacedRanked(x, tail);
        var rest := Placed(x, tail);
        forall j | 0 <= j < |rest|
          ensures Precedes(head, rest[j])
        {
          assert rest[j] in rest;
          if rest[j] in tail {
            var k :| 0 <= k < |tail| && tail[k] == rest[j];
            assert s[k + 1] == rest[j];
          }
        }
      }
    }
  }

  lemma {:induction false} ArrangedRanked(s: seq<Item>)
    ensures Ranked(Arranged(s))
  {
    if s != [] {
      ArrangedRanked(s[1..]);
      PlacedRanked(s[0], Arranged(s[1..]));
    }
  }

  ghost predicate DistinctIds(s: seq<Item>) { forall i, j :: 0 <= i < j < |s| ==> s[i].id != s[j].id }

  /** A ranking of items with distinct ids is determined by which items they are. */
  lemma {:induction false} RankingUnique(s: seq<Item>, t: seq<Item>)
    requires Ranked(s) && Ranked(t) && DistinctIds(s) && DistinctIds(t)
    requires forall x :: x in s <==> x in t
    ensures s == t
    decreases |s|
  {
    hide Precedes;
    HasHead(s);
    HasHead(t);
    if s != [] {
      if s[0].id != t[0].id {
        PrecedesAntisymmetric(s[0], t[0]);
        assert false;
      }
      TailMembers(s);
      TailMembers(t);
      RankingUnique(s[1..], t[1..]);
      assert s == [s[0]] + s[1..] && t == [t[0]] + t[1..];
    }
  }

  lemma HasHead(s: seq<Item>)
    ensures s == [] || s[0] in s
  {
  }

  lemma TailMembers(s: seq<Item>)
    requires s != [] && DistinctIds(s)
    ensures forall x :: x in s[1..] <==> x in s && x != s[0]
  {
    assert s == [s[0]] + s[1..];
    assert forall i :: 0 <= i < |s| - 1 ==> s[1..][i] == s[i + 1];
  }

  // ---------- the merge, item by item ----------

  /** The backlog by id; of several items with one id the last counts. */
  function ById(existing: seq<Item>): map<string, Item> {
    if existing == [] then map[]
    else ById(existing[..|existing| - 1])[existing[|existing| - 1].id := existing[|existing| - 1]]
  }

  function Overridden(item: Item, ledger: map<string, string>): Item {
    if item.id in ledger then item.(status := ledger[item.id]) else item
  }

  /** The ledger's outcomes override recorded statuses. */
  function Folded(prior: map<string, Item>, ledger: map<string, string>): map<string, Item> {
    map k | k in prior :: if k in ledger then prior[k].(status := ledger[k]) else prior[k]
  }

  predicate Kept(status: string) { status == "blocked" || status == "in-review" || status == "needs-design" }

  predicate Closed(status: string) { status == "done" || status == "resolved" }

  /** Evidence found: judgements survive, closed items are reopened. */
  function Seen(item: Item, prior: map<string, Item>): (r: Item)
    ensures r.id == item.id
  {
    if item.id !in prior then item
    else
      var was := prior[item.id];
      if Kept(was.status) then item.(status := was.status, reopenedFrom := was.reopenedFrom)
      else if Closed(was.status) then item.(status := "pending", reopenedFrom := Some(was.status))
      else item.(reopenedFrom := was.reopenedFrom)
  }

  /** Evidence not found: unscanned buckets say nothing; others resolve once and are then pruned. */
  function Unseen(was: Item, scanned: set<string>): (r: Option<Item>)
    ensures r.Some? ==> r.value.id == was.id
  {
    if was.bucket !in scanned then Some(was)
    else if was.status == "resolved" then None
    else Some(was.(status := "resolved", reopenedFrom := None))
  }

  function IdsOf(items: seq<Item>): set<string> { set x | x in items :: x.id }

  function SeenAll(found: seq<Item>, prior: map<string, Item>): (r: seq<Item>)
    ensures |r| == |found|
  {
    seq(|found|, i requires 0 <= i < |found| => Seen(found[i], prior))
  }

  function UnseenAll(keys: seq<string>, prior: map<string, Item>, found: set<string>, scanned: set<string>): seq<Item>
    requires forall k :: k in keys ==> k in prior
  {
    if keys == [] then []
    else
      var n := |keys| - 1;
      var k := keys[n];
      var u := if k in found then None else Unseen(prior[k], scanned);
      UnseenAll(keys[..n], prior, found, scanned) + if u.Some? then [u.value] else []
  }

  function Merge(existing: seq<Item>, ledger: map<string, string>, found: seq<Item>, scanned: set<string>): seq<Item> {
    var prior := Folded(ById(existing), ledger);
    Arranged(SeenAll(found, prior) + UnseenAll(Ascending(prior.Keys), prior, IdsOf(found), scanned))
  }

  // ---------- the loops ----------

  method MergeBacklog(existing: seq<Item>, ledger: map<string, string>, found: seq<Item>, scanned: set<string>)
    returns (merged: seq<Item>)
    ensures merged == Merge(existing, ledger, found, scanned)
    ensures Ranked(merged)
  {
    hide ById, Folded, Arranged, UnseenAll, Ascending, Ranked;
    var prior := Collect(existing, ledger);
    var list: seq<Item> := [];
    var seen: set<string> := {};
    for i := 0 to |found|
      invariant list == SeenAll(found[..i], prior) && seen == IdsOf(found[..i])
    {
      var item := found[i];
      seen := seen + {item.id};
      if item.id in prior {
        var was := prior[item.id];
        if was.status == "blocked" || was.status == "in-review" || was.status == "needs-design" {
          item := item.(status := was.status, reopenedFrom := was.reopenedFrom);
        } else if was.status == "done" || was.status == "resolved" {
          item := item.(status := "pending", reopenedFrom := Some(was.status));
        } else {
          item := item.(reopenedFrom := was.reopenedFrom);
        }
      }
      list := list + [item];
    }
    assert found[..|found|] == found;
    var rest := Leftovers(prior, seen, scanned);
    merged := Arranged(list + rest);
    ArrangedRanked(list + rest);
  }

  /** Index the existing items and fold the ledger in. */
  method Collect(existing: seq<Item>, ledger: map<string, string>) returns (prior: map<string, Item>)
    ensures prior == Folded(ById(existing), ledger)
  {
    hide Ascending;
    prior := map[];
    for i := 0 to |existing|
      invariant prior == ById(existing[..i])
    {
      assert existing[..i + 1][..i] == existing[..i];
      prior := prior[existing[i].id := existing[i]];
    }
    assert existing[..|existing|] == existing;
    prior := Fold(prior, ledger);
  }

  /** The ledger loop. */
  method Fold(before: map<string, Item>, ledger: map<string, string>) returns (prior: map<string, Item>)
    ensures prior == Folded(before, ledger)
  {
    hide Ascending, Folded;
    var ids := Ascending(ledger.Keys);
    prior := before;
    NothingFolded(before);
    AscendingDistinct(ledger.Keys);
    for i := 0 to |ids|
      invariant prior == Folded(before, Restrict(ledger, ids[..i]))
    {
      var id := ids[i];
      FoldStep(before, ledger, ids, i);
      if id in prior {
        prior := prior[id := prior[id].(status := ledger[id])];
      }
    }
    assert ids[..|ids|] == ids;
    assert Restrict(ledger, ids) == ledger;
  }

  function Restrict(ledger: map<string, string>, ids: seq<string>): map<string, string> {
    map k | k in ledger && k in ids :: ledger[k]
  }

  lemma NothingFolded(before: map<string, Item>)
    ensures Folded(before, map[]) == before
    ensures forall ledger :: Restrict(ledger, []) == map[]
  {
  }

  lemma FoldStep(before: map<string, Item>, ledger: map<string, string>, ids: seq<string>, i: nat)
    requires i < |ids| && ids[i] in ledger && forall j :: 0 <= j < i ==> ids[j] != ids[i]
    ensures var now, id := Folded(before, Restrict(ledger, ids[..i])), ids[i];
      Folded(before, Restrict(ledger, ids[..i + 1])) == if id in now then now[id := now[id].(status := ledger[id])] else now
  {
    assert ids[..i + 1] == ids[..i] + [ids[i]];
  }

  /** The second loop: prior items that this scan did not see. */
  method Leftovers(prior: map<string, Item>, seen: set<string>, scanned: set<string>) returns (rest: seq<Item>)
    ensures rest == UnseenAll(Ascending(prior.Keys), prior, seen, scanned)
  {
    hide Ascending;
    var keys := Ascending(prior.Keys);
    rest := [];
    for i := 0 to |keys|
      invariant rest == UnseenAll(keys[..i], prior, seen, scanned)
    {
      assert keys[..i + 1][..i] == keys[..i];
      var was := prior[keys[i]];
      if keys[i] in seen {
        continue;
      }
      if was.bucket !in scanned {
        rest := rest + [was];
        continue;
      }
      if was.status == "resolved" {
        continue;
      }
      rest := rest + [was.(status := "resolved", reopenedFrom := None)];
    }
    assert keys[..|keys|] == keys;
  }

  // ---------- the merge as a map from ids ----------

  ghost predicate Keyed(m: map<string, Item>) { forall k :: k in m ==> m[k].id == k }

  /** What the next backlog holds for one id. */
  ghost function NextFor(prior: map<string, Item>, found: seq<Item>, scanned: set<string>, id: string): Option<Item> {
    if exists i :: 0 <= i < |found| && found[i].id == id then
      var i :| 0 <= i < |found| && found[i].id == id;
      Some(Seen(found[i], prior))
    else if id in prior then Unseen(prior[id], scanned)
    else None
  }

  lemma {:induction false} ByIdKeyed(existing: seq<Item>)
    ensures Keyed(ById(existing))
    ensures forall k :: k in ById(existing) ==> ById(existing)[k] in existing
    ensures forall x :: x in existing ==> x.id in ById(existing)
  {
    if existing != [] {
      var n := |existing| - 1;
      ByIdKeyed(existing[..n]);
      assert existing == existing[..n] + [existing[n]];
    }
  }

  /** The leftovers are exactly the unseen prior items that survive, each once. */
  lemma {:induction false} UnseenMembers(keys: seq<string>, prior: map<string, Item>, ids: set<string>, scanned: set<string>)
    requires Keyed(prior) && (forall k :: k in keys ==> k in prior)
    requires forall i, j :: 0 <= i < j < |keys| ==> keys[i] != keys[j]
    ensures var r := UnseenAll(keys, prior, ids, scanned);
      && DistinctIds(r)
      && forall x :: x in r <==> x.id in keys && x.id !in ids && Unseen(prior[x.id], scanned) == Some(x)
  {
    hide Unseen;
    if keys != [] {
      var n := |keys| - 1;
      UnseenMembers(keys[..n], prior, ids, scanned);
      assert keys == keys[..n] + [keys[n]];
      var before := UnseenAll(keys[..n], prior, ids, scanned);
      forall i | 0 <= i < |before|
        ensures before[i].id != keys[n]
      {
        assert before[i] in before;
      }
    }
  }

  lemma PermutationDistinct(s: seq<Item>, t: seq<Item>)
    requires DistinctIds(s) && multiset(s) == multiset(t)
    ensures DistinctIds(t)
  {
    forall i, j | 0 <= i < j < |t|
      ensures t[i].id != t[j].id
    {
      if t[i].id == t[j].id {
        assert t[i] in multiset(s) && t[j] in multiset(s);
        OnceEach(s, t[i]);
        TwiceIn(t, i, j);
      }
    }
  }

  lemma {:induction false} OnceEach(s: seq<Item>, x: Item)
    requires DistinctIds(s)
    ensures multiset(s)[x] <= 1
  {
    if s != [] {
      OnceEach(s[1..], x);
      assert s == [s[0]] + s[1..];
      if x == s[0] {
        forall i | 0 <= i < |s[1..]|
          ensures s[1..][i] != x
        {
          assert s[1..][i] == s[i + 1];
        }
        assert x !in s[1..];
      }
    }
  }

  lemma TwiceIn(t: seq<Item>, i: nat, j: nat)
    requires i < j < |t| && t[i] == t[j]
    ensures multiset(t)[t[i]] >= 2
  {
    assert t == t[..i] + [t[i]] + t[i + 1..j] + [t[j]] + t[j + 1..];
  }

  /** When the ids found are distinct, so are the merged ones, and each is what its id calls for. */
  lemma MergeMembers(existing: seq<Item>, ledger: map<string, string>, found: seq<Item>, scanned: set<string>)
    requires DistinctIds(found)
    ensures var prior, r := Folded(ById(existing), ledger), Merge(existing, ledger, found, scanned);
      && DistinctIds(r) && Ranked(r)
      && forall x :: x in r <==> NextFor(prior, found, scanned, x.id) == Some(x)
  {
    hide Precedes, Seen, Unseen, Arranged, UnseenAll, Ascending, Folded, ById, NextFor;
    var prior := Folded(ById(existing), ledger);
    ByIdKeyed(existing);
    FoldedKeyed(ById(existing), ledger);
    AscendingDistinct(prior.Keys);
    var keys := Ascending(prior.Keys);
    UnseenMembers(keys, prior, IdsOf(found), scanned);
    var a, b := SeenAll(found, prior), UnseenAll(keys, prior, IdsOf(found), scanned);
    ArrangedRanked(a + b);
    PermutationDistinct(a + b, Arranged(a + b));
    forall x: Item
      ensures x in a + b <==> NextFor(prior, found, scanned, x.id) == Some(x)
    {
      NextForCases(prior, found, scanned, x, a, b);
    }
  }

  lemma FoldedKeyed(m: map<string, Item>, ledger: map<string, string>)
    requires Keyed(m)
    ensures Keyed(Folded(m, ledger)) && Folded(m, ledger).Keys == m.Keys
  {
  }

  lemma NextForCases(prior: map<string, Item>, found: seq<Item>, scanned: set<string>, x: Item, a: seq<Item>, b: seq<Item>)
    requires DistinctIds(found) && Keyed(prior) && a == SeenAll(found, prior)
    requires forall y :: y in b <==> y.id in prior && y.id !in IdsOf(found) && Unseen(prior[y.id], scanned) == Some(y)
    ensures x in a + b <==> NextFor(prior, found, scanned, x.id) == Some(x)
  {
    hide Seen, Unseen;
    if i :| 0 <= i < |found| && found[i].id == x.id {
      hide NextFor;
      assert found[i] in found;
      assert x.id in IdsOf(found);
      assert a[i] == Seen(found[i], prior);
    } else {
      assert x.id !in IdsOf(found);
    }
  }

  // ---------- what the merge makes of an item, status by status ----------

  /** Item j is what the backlog records for its id: the last with that id. */
  ghost predicate IsRecord(existing: seq<Item>, j: nat, id: string) {
    j < |existing| && existing[j].id == id && forall k :: j < k < |existing| ==> existing[k].id != id
  }

  lemma {:induction false} RecordById(existing: seq<Item>, j: nat, id: string)
    requires IsRecord(existing, j, id)
    ensures id in ById(existing) && ById(existing)[id] == existing[j]
  {
    if j < |existing| - 1 {
      RecordById(existing[..|existing| - 1], j, id);
    }
  }

  /**
   Found again: a judgement (blocked, in review, needs design) is kept with where the item was
   reopened from; a closed item (done, resolved) is pending again and says what it was reopened
   from; any other takes the found status. Everything else is as found. The ledger, where it
   knows the id, speaks for the recorded status.
   */
  lemma KnownEvidence(existing: seq<Item>, ledger: map<string, string>, found: seq<Item>, scanned: set<string>, i: nat, j: nat)
    requires i < |found| && IsRecord(existing, j, found[i].id)
    ensures var x, was := found[i], existing[j];
      var status := if x.id in ledger then ledger[x.id] else was.status;
      var kept, closed := status in {"blocked", "in-review", "needs-design"}, status in {"done", "resolved"};
      Item(x.id, x.bucket, x.crates, x.title, x.evidence, x.effort,
           if kept then status else if closed then "pending" else x.status,
           x.count,
           if closed then Some(status) else was.reopenedFrom) in Merge(existing, ledger, found, scanned)
  {
    hide ById, Arranged, UnseenAll, Ascending;
    RecordById(existing, j, found[i].id);
    FoundIsMerged(existing, ledger, found, scanned, i);
  }

  /** Found for the first time: the item is taken as it is. */
  lemma NewEvidence(existing: seq<Item>, ledger: map<string, string>, found: seq<Item>, scanned: set<string>, i: nat)
    requires i < |found| && forall e :: e in existing ==> e.id != found[i].id
    ensures found[i] in Merge(existing, ledger, found, scanned)
  {
    hide ById, Arranged, UnseenAll, Ascending;
    ByIdKeyed(existing);
    FoundIsMerged(existing, ledger, found, scanned, i);
  }

  lemma FoundIsMerged(existing: seq<Item>, ledger: map<string, string>, found: seq<Item>, scanned: set<string>, i: nat)
    requires i < |found|
    ensures Seen(found[i], Folded(ById(existing), ledger)) in Merge(existing, ledger, found, scanned)
  {
    hide ById, Arranged, UnseenAll, Ascending, Seen, Folded;
    var prior := Folded(ById(existing), ledger);
    assert SeenAll(found, prior)[i] == Seen(found[i], prior);
  }

  /**
   Not found: an item of a bucket that was not scanned stays with its status; one that counts as
   resolved is gone; any other stays as resolved.
   */
  lemma NoEvidence(existing: seq<Item>, ledger: map<string, string>, found: seq<Item>, scanned: set<string>, j: nat)
    requires DistinctIds(found) && j < |existing| && IsRecord(existing, j, existing[j].id)
    requires forall f :: f in found ==> f.id != existing[j].id
    ensures var was, merged := existing[j], Merge(existing, ledger, found, scanned);
      var status := if was.id in ledger then ledger[was.id] else was.status;
      if was.bucket in scanned && status == "resolved" then forall x :: x in merged ==> x.id != was.id
      else
        Item(was.id, was.bucket, was.crates, was.title, was.evidence, was.effort,
             if was.bucket in scanned then "resolved" else status,
             was.count,
             if was.bucket in scanned then None else was.reopenedFrom) in merged
  {
    hide ById, Merge, Ranked;
    var was := existing[j];
    RecordById(existing, j, was.id);
    ByIdKeyed(existing);
    MergeMembers(existing, ledger, found, scanned);
  }

  /** The merge holds nothing else, and each id once. */
  lemma NothingElse(existing: seq<Item>, ledger: map<string, string>, found: seq<Item>, scanned: set<string>)
    requires DistinctIds(found)
    ensures forall x :: x in Merge(existing, ledger, found, scanned) ==>
      (exists f :: f in found && f.id == x.id) || (exists e :: e in existing && e.id == x.id)
    ensures forall x, y :: x in Merge(existing, ledger, found, scanned) && y in Merge(existing, ledger, found, scanned) && x.id == y.id ==> x == y
  {
    hide ById, Merge, Ranked, Seen, Unseen, Folded;
    MergeMembers(existing, ledger, found, scanned);
    ByIdKeyed(existing);
    FoldedKeyed(ById(existing), ledger);
    forall x | x in Merge(existing, ledger, found, scanned)
      ensures (exists f :: f in found && f.id == x.id) || (exists e :: e in existing && e.id == x.id)
    {
      if i :| 0 <= i < |found| && found[i].id == x.id {
        assert found[i] in found;
      } else {
        assert ById(existing)[x.id] in existing;
      }
    }
  }

  /**
   The order of the result, bucket by bucket: provider wiring, lint debt, test gaps, hygiene, then
   the rest; larger counts first, then ids in character order.
   */
  lemma MergeOrder(existing: seq<Item>, ledger: map<string, string>, found: seq<Item>, scanned: set<string>, i: nat, j: nat)
    requires i < j < |Merge(existing, ledger, found, scanned)|
    ensures var a, b := Merge(existing, ledger, found, scanned)[i], Merge(existing, ledger, found, scanned)[j];
      && (b.bucket == "provider-wiring" ==> a.bucket == "provider-wiring")
      && (b.bucket == "lint-debt" ==> a.bucket in {"provider-wiring", "lint-debt"})
      && (b.bucket == "test-gaps" ==> a.bucket in {"provider-wiring", "lint-debt", "test-gaps"})
      && (b.bucket == "hygiene" ==> a.bucket in {"provider-wiring", "lint-debt", "test-gaps", "hygiene"})
      && (a.bucket == b.bucket || (a.bucket !in BUCKET_ORDER && b.bucket !in BUCKET_ORDER) ==>
            a.count > b.count || (a.count == b.count && (a.id == b.id || Less(a.id, b.id))))
  {
    hide Less, ById, UnseenAll, Ascending, Folded, Arranged;
    var prior := Folded(ById(existing), ledger);
    var all := SeenAll(found, prior) + UnseenAll(Ascending(prior.Keys), prior, IdsOf(found), scanned);
    ArrangedRanked(all);
    assert Precedes(Arranged(all)[i], Arranged(all)[j]);
  }

  // ---------- repeated scans ----------

  function Look(m: map<string, Item>, id: string): Option<Item> { if id in m then Some(m[id]) else None }

  function Judged(was: Option<Item>, ledger: map<string, string>): Option<Item> {
    if was.Some? then Some(Overridden(was.value, ledger)) else None
  }

  function SeenOne(item: Item, was: Option<Item>): Item {
    Seen(item, if was.Some? then map[item.id := was.value] else map[])
  }

  /** One id's item from one backlog to the next. */
  ghost function Evolve(was: Option<Item>, id: string, ledger: map<string, string>, found: seq<Item>, scanned: set<string>): Option<Item> {
    var p := Judged(was, ledger);
    if exists i :: 0 <= i < |found| && found[i].id == id then
      var i :| 0 <= i < |found| && found[i].id == id;
      Some(SeenOne(found[i], p))
    else if p.Some? then Unseen(p.value, scanned)
    else None
  }

  lemma EvolveFound(was: Option<Item>, ledger: map<string, string>, found: seq<Item>, scanned: set<string>, i: nat)
    requires DistinctIds(found) && i < |found|
    ensures Evolve(was, found[i].id, ledger, found, scanned) == Some(SeenOne(found[i], Judged(was, ledger)))
  {
  }

  lemma EvolveNotFound(was: Option<Item>, id: string, ledger: map<string, string>, found: seq<Item>, scanned: set<string>)
    requires id !in IdsOf(found)
    ensures Evolve(was, id, ledger, found, scanned) == if was.Some? then Unseen(Overridden(was.value, ledger), scanned) else None
  {
  }

  lemma NextForEvolves(existing: seq<Item>, ledger: map<string, string>, found: seq<Item>, scanned: set<string>, id: string)
    requires DistinctIds(found)
    ensures NextFor(Folded(ById(existing), ledger), found, scanned, id) == Evolve(Look(ById(existing), id), id, ledger, found, scanned)
  {
    hide Unseen, Kept, Closed;
    ByIdKeyed(existing);
    if i :| 0 <= i < |found| && found[i].id == id {
      hide NextFor, Evolve;
      EvolveFound(Look(ById(existing), id), ledger, found, scanned, i);
    }
  }

  /** The merge treats every id on its own. */
  lemma MergeEvolves(existing: seq<Item>, ledger: map<string, string>, found: seq<Item>, scanned: set<string>, id: string)
    requires DistinctIds(found)
    ensures Look(ById(Merge(existing, ledger, found, scanned)), id) == Evolve(Look(ById(existing), id), id, ledger, found, scanned)
  {
    hide Merge, NextFor, Evolve, Ranked, Folded, ById;
    var r := Merge(existing, ledger, found, scanned);
    MergeMembers(existing, ledger, found, scanned);
    ByIdKeyed(r);
    NextForEvolves(existing, ledger, found, scanned, id);
    ByIdKeyed(existing);
    EvolveKeepsId(Look(ById(existing), id), id, ledger, found, scanned);
  }

  lemma EvolveKeepsId(was: Option<Item>, id: string, ledger: map<string, string>, found: seq<Item>, scanned: set<string>)
    requires was.Some? ==> was.value.id == id
    ensures Evolve(was, id, ledger, found, scanned).Some? ==> Evolve(was, id, ledger, found, scanned).value.id == id
  {
    hide Kept, Closed;
  }

  /** Found items outside the ledger do not arrive closed. */
  ghost predicate OpenEvidence(ledger: map<string, string>, found: seq<Item>) {
    forall i :: 0 <= i < |found| ==> found[i].id in ledger || !Closed(found[i].status)
  }

  lemma SeenSettles(item: Item, was: Option<Item>, ledger: map<string, string>)
    requires was.Some? ==> was.value.id == item.id
    requires item.id in ledger || !Closed(item.status)
    ensures var a := Some(SeenOne(item, Judged(was, ledger)));
      var b := Some(SeenOne(item, Judged(a, ledger)));
      Some(SeenOne(item, Judged(b, ledger))) == b
  {
  }

  lemma UnseenSettles(was: Item, ledger: map<string, string>, scanned: set<string>)
    ensures var a := Unseen(Overridden(was, ledger), scanned);
      var b := if a.Some? then Unseen(Overridden(a.value, ledger), scanned) else None;
      b.Some? ==> Unseen(Overridden(b.value, ledger), scanned) == b
  {
  }

  lemma EvolveSettles(was: Option<Item>, id: string, ledger: map<string, string>, found: seq<Item>, scanned: set<string>)
    requires DistinctIds(found) && OpenEvidence(ledger, found) && (was.Some? ==> was.value.id == id)
    ensures var a := Evolve(was, id, ledger, found, scanned);
      var b := Evolve(a, id, ledger, found, scanned);
      Evolve(b, id, ledger, found, scanned) == b
  {
    hide Seen, Unseen, Kept, Closed;
    var a := Evolve(was, id, ledger, found, scanned);
    var b := Evolve(a, id, ledger, found, scanned);
    if i :| 0 <= i < |found| && found[i].id == id {
      hide Evolve;
      EvolveFound(was, ledger, found, scanned, i);
      EvolveFound(a, ledger, found, scanned, i);
      EvolveFound(b, ledger, found, scanned, i);
      SeenSettles(found[i], was, ledger);
    } else {
      hide Evolve;
      assert id !in IdsOf(found);
      EvolveNotFound(was, id, ledger, found, scanned);
      EvolveNotFound(a, id, ledger, found, scanned);
      EvolveNotFound(b, id, ledger, found, scanned);
      if was.Some? {
        UnseenSettles(was.value, ledger, scanned);
      }
    }
  }

  /** Two merges holding the same item for every id are the same list. */
  lemma SameLookupSameMerge(s: seq<Item>, t: seq<Item>)
    requires DistinctIds(s) && DistinctIds(t) && Ranked(s) && Ranked(t)
    requires forall id :: Look(ById(s), id) == Look(ById(t), id)
    ensures s == t
  {
    hide Ranked, ById;
    ByIdKeyed(s);
    ByIdKeyed(t);
    forall x: Item
      ensures x in s <==> x in t
    {
      assert Look(ById(s), x.id) == Look(ById(t), x.id);
    }
    RankingUnique(s, t);
  }

  /** With open evidence, scanning again after two scans changes nothing. */
  lemma TwoScansSettle(existing: seq<Item>, ledger: map<string, string>, found: seq<Item>, scanned: set<string>)
    requires DistinctIds(found) && OpenEvidence(ledger, found)
    ensures var once := Merge(existing, ledger, found, scanned);
      var twice := Merge(once, ledger, found, scanned);
      Merge(twice, ledger, found, scanned) == twice
  {
    hide Merge, Evolve, Ranked, ById, NextFor, OpenEvidence;
    var once := Merge(existing, ledger, found, scanned);
    var twice := Merge(once, ledger, found, scanned);
    var again := Merge(twice, ledger, found, scanned);
    MergeMembers(once, ledger, found, scanned);
    MergeMembers(twice, ledger, found, scanned);
    ByIdKeyed(existing);
    forall id
      ensures Look(ById(again), id) == Look(ById(twice), id)
    {
      MergeEvolves(existing, ledger, found, scanned, id);
      MergeEvolves(once, ledger, found, scanned, id);
      MergeEvolves(twice, ledger, found, scanned, id);
      EvolveSettles(Look(ById(existing), id), id, ledger, found, scanned);
    }
    SameLookupSameMerge(again, twice);
  }

  /** The backlog after n scans that see the same evidence, ledger and buckets. */
  function Scans(existing: seq<Item>, ledger: map<string, string>, found: seq<Item>, scanned: set<string>, n: nat): seq<Item> {
    if n == 0 then existing else Merge(Scans(existing, ledger, found, scanned, n - 1), ledger, found, scanned)
  }

  /** Where one id's item stands after n scans. */
  function After(existing: seq<Item>, ledger: map<string, string>, found: seq<Item>, scanned: set<string>, n: nat, id: string): Option<Item> {
    Look(ById(Scans(existing, ledger, found, scanned, n)), id)
  }

  lemma AfterOneMore(existing: seq<Item>, ledger: map<string, string>, found: seq<Item>, scanned: set<string>, n: nat, id: string)
    requires DistinctIds(found)
    ensures After(existing, ledger, found, scanned, n + 1, id) ==
            Evolve(After(existing, ledger, found, scanned, n, id), id, ledger, found, scanned)
  {
    hide Merge, Evolve, ById;
    MergeEvolves(Scans(existing, ledger, found, scanned, n), ledger, found, scanned, id);
  }

  /**
   A found item outside the ledger that arrives closed, unless a judgement holds it, is closed
   and reopened by turns: each scan makes it closed exactly when the one before had not.
   */
  lemma {:induction false} ClosedEvidenceFlips(existing: seq<Item>, ledger: map<string, string>, found: seq<Item>, scanned: set<string>,
                                               i: nat, n: nat)
    requires DistinctIds(found) && i < |found| && found[i].id !in ledger && Closed(found[i].status)
    requires found[i].id in ById(existing) ==> !Kept(ById(existing)[found[i].id].status)
    ensures var now := After(existing, ledger, found, scanned, n, found[i].id);
      var next := After(existing, ledger, found, scanned, n + 1, found[i].id);
      && (now.Some? ==> !Kept(now.value.status) && now.value.id == found[i].id) && (n > 0 ==> now.Some?)
      && next.Some? && (Closed(next.value.status) <==> now.None? || !Closed(now.value.status))
  {
    hide Scans, Evolve, ById;
    var id := found[i].id;
    ByIdKeyed(existing);
    if n == 0 {
      NoScan(existing, ledger, found, scanned);
    } else {
      ClosedEvidenceFlips(existing, ledger, found, scanned, i, n - 1);
      AfterOneMore(existing, ledger, found, scanned, n - 1, id);
      EvolveFound(After(existing, ledger, found, scanned, n - 1, id), ledger, found, scanned, i);
    }
    AfterOneMore(existing, ledger, found, scanned, n, id);
    EvolveFound(After(existing, ledger, found, scanned, n, id), ledger, found, scanned, i);
  }

  lemma NoScan(existing: seq<Item>, ledger: map<string, string>, found: seq<Item>, scanned: set<string>)
    ensures Scans(existing, ledger, found, scanned, 0) == existing
  {
  }

  /** After n scans the backlog is what it was after two. */
  ghost predicate Settled(existing: seq<Item>, ledger: map<string, string>, found: seq<Item>, scanned: set<string>, n: nat) {
    Scans(existing, ledger, found, scanned, n) == Scans(existing, ledger, found, scanned, 2)
  }

  /** Once settled, further scans change nothing. */
  lemma {:induction false} ScansStaySettled(existing: seq<Item>, ledger: map<string, string>, found: seq<Item>, scanned: set<string>, n: nat)
    requires DistinctIds(found) && OpenEvidence(ledger, found) && n >= 2
    ensures Settled(existing, ledger, found, scanned, n)
  {
    hide Merge;
    if n > 2 {
      ScansStaySettled(existing, ledger, found, scanned, n - 1);
      TwoScansSettle(existing, ledger, found, scanned);
      TwoScans(existing, ledger, found, scanned);
    }
  }

  lemma TwoScans(existing: seq<Item>, ledger: map<string, string>, found: seq<Item>, scanned: set<string>)
    ensures Scans(existing, ledger, found, scanned, 2) == Merge(Merge(existing, ledger, found, scanned), ledger, found, scanned)
  {
    hide Merge;
    assert Scans(existing, ledger, found, scanned, 1) == Merge(existing, ledger, found, scanned) by {
      NoScan(existing, ledger, found, scanned);
    }
  }

  /**
   For distinct evidence, every backlog is settled for good after two scans exactly when no
   found item outside the ledger arrives already done or resolved.
   */
  lemma SettlesIff(ledger: map<string, string>, found: seq<Item>, scanned: set<string>)
    requires DistinctIds(found)
    ensures OpenEvidence(ledger, found) <==>
      forall existing, n: nat :: n >= 2 ==> Settled(existing, ledger, found, scanned, n)
  {
    hide Scans, ById;
    if OpenEvidence(ledger, found) {
      forall existing, n: nat | n >= 2
        ensures Settled(existing, ledger, found, scanned, n)
      {
        ScansStaySettled(existing, ledger, found, scanned, n);
      }
    } else {
      var i :| 0 <= i < |found| && found[i].id !in ledger && Closed(found[i].status);
      NothingById(found[i].id);
      ClosedEvidenceFlips([], ledger, found, scanned, i, 2);
      assert !Settled([], ledger, found, scanned, 3);
    }
  }

  lemma NothingById(id: string)
    ensures id !in ById([])
  {
  }

  /** An item of a bucket that is not scanned is never lost or resolved: only the ledger may change it. */
  lemma {:induction false} SkippedBucketsSurvive(existing: seq<Item>, ledger: map<string, string>, found: seq<Item>, scanned: set<string>,
                                                 id: string, n: nat)
    requires DistinctIds(found) && id in ById(existing) && id !in IdsOf(found) && ById(existing)[id].bucket !in scanned
    requires n > 0
    ensures Overridden(ById(existing)[id], ledger) in Scans(existing, ledger, found, scanned, n)
    ensures After(existing, ledger, found, scanned, n, id) == Some(Overridden(ById(existing)[id], ledger))
  {
    hide Scans, Evolve, ById;
    ByIdKeyed(existing);
    NoScan(existing, ledger, found, scanned);
    AfterOneMore(existing, ledger, found, scanned, n - 1, id);
    if n > 1 {
      SkippedBucketsSurvive(existing, ledger, found, scanned, id, n - 1);
    }
    EvolveNotFound(After(existing, ledger, found, scanned, n - 1, id), id, ledger, found, scanned);
    ByIdKeyed(Scans(existing, ledger, found, scanned, n));
  }

  /** One scan of a scanned bucket without evidence resolves an item, or prunes a resolved one. */
  lemma VanishedEvidence(existing: seq<Item>, ledger: map<string, string>, found: seq<Item>, scanned: set<string>, id: string)
    requires DistinctIds(found) && id in ById(existing) && id !in IdsOf(found) && ById(existing)[id].bucket in scanned
    ensures var was, next := ById(existing)[id], Look(ById(Merge(existing, ledger, found, scanned)), id);
      next == if Overridden(was, ledger).status == "resolved" then None
              else Some(was.(status := "resolved", reopenedFrom := None))
  {
    hide Merge, Evolve, ById;
    MergeEvolves(existing, ledger, found, scanned, id);
    EvolveNotFound(Look(ById(existing), id), id, ledger, found, scanned);
  }

  /** The ledger keeps giving the id an outcome other than resolved. */
  predicate KeptOpenByLedger(ledger: map<string, string>, id: string) { id in ledger && ledger[id] != "resolved" }

  /**
   Without evidence in a scanned bucket, an item is pruned within two scans, and for good, unless
   the ledger records its id with an outcome other than resolved; then every scan resolves it
   anew and none prunes it.
   */
  lemma {:induction false} VanishedForGood(existing: seq<Item>, ledger: map<string, string>, found: seq<Item>, scanned: set<string>,
                                           id: string, n: nat)
    requires DistinctIds(found) && id in ById(existing) && id !in IdsOf(found) && ById(existing)[id].bucket in scanned
    requires n > 0
    ensures var was, now := ById(existing)[id], After(existing, ledger, found, scanned, n, id);
      && (KeptOpenByLedger(ledger, id) ==> now == Some(was.(status := "resolved", reopenedFrom := None)))
      && (!KeptOpenByLedger(ledger, id) ==> now.None? || (n == 1 && id !in ledger && now.value == was.(status := "resolved", reopenedFrom := None)))
  {
    hide Scans, Evolve, ById;
    ByIdKeyed(existing);
    NoScan(existing, ledger, found, scanned);
    AfterOneMore(existing, ledger, found, scanned, n - 1, id);
    if n > 1 {
      VanishedForGood(existing, ledger, found, scanned, id, n - 1);
    }
    EvolveNotFound(After(existing, ledger, found, scanned, n - 1, id), id, ledger, found, scanned);
  }

  /** When an item without evidence is gone after two scans, and after any number of further ones. */
  lemma PrunedIff(existing: seq<Item>, ledger: map<string, string>, found: seq<Item>, scanned: set<string>, id: string, n: nat)
    requires DistinctIds(found) && id in ById(existing) && id !in IdsOf(found) && ById(existing)[id].bucket in scanned
    requires n >= 2
    ensures id !in ById(Scans(existing, ledger, found, scanned, n)) <==> id !in ledger || ledger[id] == "resolved"
  {
    hide Scans, ById;
    VanishedForGood(existing, ledger, found, scanned, id, n);
  }

  /** A judgement is kept over any number of scans that find the item again. */
  lemma {:induction false} JudgementHolds(existing: seq<Item>, ledger: map<string, string>, found: seq<Item>, scanned: set<string>,
                                          i: nat, j: nat, n: nat)
    requires DistinctIds(found) && i < |found| && IsRecord(existing, j, found[i].id) && n > 0
    requires (if found[i].id in ledger then ledger[found[i].id] else existing[j].status) in {"blocked", "in-review", "needs-design"}
    ensures var x := found[i];
      After(existing, ledger, found, scanned, n, x.id) ==
      Some(Item(x.id, x.bucket, x.crates, x.title, x.evidence, x.effort,
                if x.id in ledger then ledger[x.id] else existing[j].status, x.count, existing[j].reopenedFrom))
  {
    hide Scans, Evolve, ById;
    var id := found[i].id;
    RecordById(existing, j, id);
    NoScan(existing, ledger, found, scanned);
    if n > 1 {
      JudgementHolds(existing, ledger, found, scanned, i, j, n - 1);
    }
    AfterOneMore(existing, ledger, found, scanned, n - 1, id);
    EvolveFound(After(existing, ledger, found, scanned, n - 1, id), ledger, found, scanned, i);
  }
}
