/**
 Topological validation of a workflow by Kahn's algorithm
 (`WorkflowDefinition::validate_dag`, crates/tdw-agent/src/lib.rs).
 */
module WorkflowDag {
  import opened Results
  import opened Sets
  import opened StringOrder

  datatype Edge = Edge(src: string, dst: string)

  datatype DagError = DuplicateNode(id: string) | MissingNode(id: string) | Cycle

  // ---------- what a workflow is ----------

  ghost predicate Distinct(s: seq<string>) {
    forall i, j :: 0 <= i < j < |s| ==> s[i] != s[j]
  }

  predicate Declared(nodes: seq<string>, e: Edge) { e.src in nodes && e.dst in nodes }

  function Members(s: seq<string>): set<string> { set x | x in s }

  ghost predicate Closed(nodes: seq<string>, edges: seq<Edge>) {
    forall i :: 0 <= i < |edges| ==> Declared(nodes, edges[i])
  }

  ghost predicate IsWalk(edges: seq<Edge>, p: seq<string>) {
    forall i :: 0 <= i < |p| - 1 ==> Edge(p[i], p[i + 1]) in edges
  }

  /** A closed walk of at least one edge; a self-loop is the shortest one. */
  ghost predicate IsCycle(edges: seq<Edge>, p: seq<string>) {
    |p| >= 2 && IsWalk(edges, p) && p[0] == p[|p| - 1]
  }

  ghost predicate HasCycle(edges: seq<Edge>) { exists p :: IsCycle(edges, p) }

  /** Every edge into an entry of the order comes from an earlier entry. */
  ghost predicate Forward(edges: seq<Edge>, order: seq<string>) {
    forall k, j :: 0 <= k < |edges| && 0 <= j < |order| && edges[k].dst == order[j] ==> edges[k].src in order[..j]
  }

  /** The nodes, each once, with every edge pointing forward. */
  ghost predicate IsTopologicalOrder(nodes: seq<string>, edges: seq<Edge>, order: seq<string>) {
    && multiset(order) == multiset(nodes)
    && Distinct(order)
    && Forward(edges, order)
  }

  /** Targets of the edges out of u, in declaration order, parallel edges repeated. */
  function Targets(edges: seq<Edge>, u: string): seq<string> {
    if edges == [] then []
    else
      var last := edges[|edges| - 1];
      Targets(edges[..|edges| - 1], u) + if last.src == u then [last.dst] else []
  }

  /** One more than the last position of v, zero when it does not occur. */
  function LastAt(t: seq<string>, v: string): (k: nat)
    ensures k <= |t|
  {
    if t == [] then 0
    else if t[|t| - 1] == v then |t|
    else LastAt(t[..|t| - 1], v)
  }

  /** One more than the last position of a predecessor of v, zero when the order holds none. */
  function LastPredecessor(edges: seq<Edge>, order: seq<string>, v: string): (k: nat)
    ensures k <= |order|
  {
    if order == [] then 0
    else
      var n := |order| - 1;
      if Edge(order[n], v) in edges then n + 1 else LastPredecessor(edges, order[..n], v)
  }

  /**
   x leaves the queue before y: nodes without predecessors in ascending order, then by the node
   that releases them, then by the last of its edges that reaches them.
   */
  predicate Sooner(edges: seq<Edge>, order: seq<string>, x: string, y: string) {
    var a, b := LastPredecessor(edges, order, x), LastPredecessor(edges, order, y);
    a < b || (a == b &&
      if a == 0 then Less(x, y)
      else LastAt(Targets(edges, order[a - 1]), x) < LastAt(Targets(edges, order[a - 1]), y))
  }

  /** First in, first out. */
  ghost predicate FirstInFirstOut(edges: seq<Edge>, order: seq<string>, placed: seq<string>) {
    forall i, j :: 0 <= i < j < |placed| ==> Sooner(edges, order, placed[i], placed[j])
  }

  /** Every outcome, in the order the checks are made. */
  ghost predicate DagOutcome(nodes: seq<string>, edges: seq<Edge>, r: Result<seq<string>, DagError>) {
    if !Distinct(nodes) then
      exists i :: 0 <= i < |nodes| && Distinct(nodes[..i]) && nodes[i] in nodes[..i] && r == Err(DuplicateNode(nodes[i]))
    else if !Closed(nodes, edges) then
      exists i :: 0 <= i < |edges| && Closed(nodes, edges[..i]) && !Declared(nodes, edges[i])
        && r == Err(MissingNode(if edges[i].src !in nodes then edges[i].src else edges[i].dst))
    else if HasCycle(edges) then r == Err(Cycle)
    else r.Ok? && IsTopologicalOrder(nodes, edges, r.value) && FirstInFirstOut(edges, r.value, r.value)
  }

  // ---------- counting edges ----------

  /** Edges into v whose source is not yet placed. */
  function Pending(edges: seq<Edge>, done: set<string>, v: string): nat {
    if edges == [] then 0
    else
      var last := edges[|edges| - 1];
      Pending(edges[..|edges| - 1], done, v) + if last.dst == v && last.src !in done then 1 else 0
  }

  function Count(s: seq<string>, v: string): nat { multiset(s)[v] }

  lemma {:induction false} PendingZero(edges: seq<Edge>, done: set<string>, v: string)
    ensures Pending(edges, done, v) == 0 <==> forall k :: 0 <= k < |edges| && edges[k].dst == v ==> edges[k].src in done
  {
    if edges != [] { PendingZero(edges[..|edges| - 1], done, v); }
  }

  /** Placing u releases exactly its outgoing edges. */
  lemma {:induction false} PendingStep(edges: seq<Edge>, done: set<string>, u: string, v: string)
    requires u !in done
    ensures Pending(edges, done, v) == Pending(edges, done + {u}, v) + Count(Targets(edges, u), v)
  {
    if edges != [] { PendingStep(edges[..|edges| - 1], done, u, v); }
  }

  lemma {:induction false} TargetsDeclared(nodes: seq<string>, edges: seq<Edge>, u: string)
    requires Closed(nodes, edges)
    ensures forall i :: 0 <= i < |Targets(edges, u)| ==> Targets(edges, u)[i] in nodes
  {
    if edges != [] {
      assert Declared(nodes, edges[|edges| - 1]);
      TargetsDeclared(nodes, edges[..|edges| - 1], u);
    }
  }

  // ---------- cycles ----------

  lemma {:induction false} DistinctSet(s: seq<string>)
    requires Distinct(s)
    ensures |Members(s)| == |s|
    ensures forall v :: multiset(s)[v] == if v in s then 1 else 0
  {
    if s != [] {
      var init, last := s[..|s| - 1], s[|s| - 1];
      DistinctSet(init);
      assert s == init + [last];
      assert last !in init;
      assert Members(s) == Members(init) + {last};
    }
  }

  ghost predicate HasPredecessorIn(edges: seq<Edge>, s: set<string>, v: string) {
    exists u :: u in s && Edge(u, v) in edges
  }

  /** Backwards walks of any length exist in a set where every member has a predecessor in the set. */
  lemma {:induction false} BackwardWalk(edges: seq<Edge>, s: set<string>, n: nat) returns (p: seq<string>)
    requires s != {} && forall v :: v in s ==> HasPredecessorIn(edges, s, v)
    ensures |p| == n + 1 && IsWalk(edges, p) && forall i :: 0 <= i < |p| ==> p[i] in s
  {
    if n == 0 {
      var v :| v in s;
      p := [v];
    } else {
      var q := BackwardWalk(edges, s, n - 1);
      assert HasPredecessorIn(edges, s, q[0]);
      var u :| u in s && Edge(u, q[0]) in edges;
      p := [u] + q;
    }
  }

  /** A non-empty set where every member has a predecessor in the set contains a cycle. */
  lemma PredecessorsGiveCycle(edges: seq<Edge>, s: set<string>)
    requires s != {} && forall v :: v in s ==> HasPredecessorIn(edges, s, v)
    ensures HasCycle(edges)
  {
    var p := BackwardWalk(edges, s, |s|);
    if Distinct(p) {
      DistinctSet(p);
      SubsetSize(Members(p), s);
      assert false;
    }
    var i, j :| 0 <= i < j < |p| && p[i] == p[j];
    assert IsCycle(edges, p[i..j + 1]);
  }

  /** Along a walk the positions in a topological order strictly increase. */
  lemma {:induction false} WalkAdvances(edges: seq<Edge>, order: seq<string>, p: seq<string>, j: nat)
    requires Distinct(order) && Forward(edges, order)
    requires |p| >= 2 && IsWalk(edges, p) && j < |order| && order[j] == p[|p| - 1]
    ensures p[0] in order[..j]
  {
    var m := |p| - 1;
    var e := Edge(p[m - 1], p[m]);
    assert e in edges;
    var k :| 0 <= k < |edges| && edges[k] == e;
    assert p[m - 1] in order[..j];
    if m > 1 {
      var i :| 0 <= i < j && order[i] == p[m - 1];
      var q := p[..m];
      assert p[0..m] == q;
      WalkAdvances(edges, order, q, i);
    }
  }

  /** A topological order rules out every cycle. */
  lemma OrderRulesOutCycles(nodes: seq<string>, edges: seq<Edge>, order: seq<string>)
    requires Closed(nodes, edges) && IsTopologicalOrder(nodes, edges, order)
    ensures !HasCycle(edges)
  {
    forall p | IsCycle(edges, p)
      ensures false
    {
      var m := |p| - 1;
      assert Edge(p[m - 1], p[m]) in edges;
      var k :| 0 <= k < |edges| && edges[k] == Edge(p[m - 1], p[m]);
      assert Declared(nodes, edges[k]);
      assert p[m] in multiset(nodes);
      assert p[m] in order;
      var j :| 0 <= j < |order| && order[j] == p[m];
      WalkAdvances(edges, order, p, j);
    }
  }

  // ---------- the queue discipline, in terms of edges ----------

  lemma {:induction false} LastPredecessorIs(edges: seq<Edge>, order: seq<string>, v: string)
    ensures var k := LastPredecessor(edges, order, v);
      && (k > 0 ==> Edge(order[k - 1], v) in edges)
      && forall p :: k <= p < |order| ==> Edge(order[p], v) !in edges
  {
    if order != [] {
      LastPredecessorIs(edges, order[..|order| - 1], v);
    }
  }

  lemma LastAtAppend(t: seq<string>, z: string, v: string)
    ensures LastAt(t + [z], v) == if z == v then |t| + 1 else LastAt(t, v)
  {
    assert (t + [z])[..|t|] == t;
  }

  /** Later among the targets of u means reached by a later edge of u. */
  lemma {:induction false} LaterTarget(edges: seq<Edge>, u: string, x: string, y: string) returns (m: nat)
    requires LastAt(Targets(edges, u), x) < LastAt(Targets(edges, u), y)
    ensures m < |edges| && edges[m] == Edge(u, y) && forall l :: m < l < |edges| ==> edges[l] != Edge(u, x) && edges[l] != Edge(u, y)
  {
    var n := |edges| - 1;
    if edges[n] == Edge(u, y) {
      m := n;
    } else {
      var before := Targets(edges[..n], u);
      LastAtAppend(before, edges[n].dst, x);
      LastAtAppend(before, edges[n].dst, y);
      assert before + [] == before && edges[n] == Edge(edges[n].src, edges[n].dst);
      m := LaterTarget(edges[..n], u, x, y);
    }
  }

  /**
   Why x comes before y in the returned order, in terms of the edges alone: y has a predecessor
   placed after all of x's; or both were released by the same node, y by a later edge of it; or
   neither has any predecessor and x is the smaller id.
   */
  lemma QueueOrder(nodes: seq<string>, edges: seq<Edge>, order: seq<string>, i: nat, j: nat)
    requires IsTopologicalOrder(nodes, edges, order) && FirstInFirstOut(edges, order, order)
    requires i < j < |order|
    ensures var x, y := order[i], order[j];
      || (exists q :: 0 <= q < j && Edge(order[q], y) in edges && forall p :: q <= p < |order| ==> Edge(order[p], x) !in edges)
      || (exists q, m ::
            && 0 <= q < i && 0 <= m < |edges|
            && (forall p :: q < p < |order| ==> Edge(order[p], x) !in edges && Edge(order[p], y) !in edges)
            && Edge(order[q], x) in edges && edges[m] == Edge(order[q], y)
            && forall l :: m < l < |edges| ==> edges[l] != Edge(order[q], x))
      || ((forall p :: 0 <= p < |order| ==> Edge(order[p], x) !in edges && Edge(order[p], y) !in edges) && Less(x, y))
  {
    hide Less, LastAt, Targets, LastPredecessor;
    var x, y := order[i], order[j];
    assert Sooner(edges, order, x, y);
    LastPredecessorIs(edges, order, x);
    LastPredecessorIs(edges, order, y);
    var a, b := LastPredecessor(edges, order, x), LastPredecessor(edges, order, y);
    if a < b {
      PlacedBefore(edges, order, b - 1, j);
    } else if a > 0 {
      var q := a - 1;
      PlacedBefore(edges, order, q, i);
      var m := LaterTarget(edges, order[q], x, y);
      assert edges[m] == Edge(order[q], y);
    }
  }

  lemma PlacedBefore(edges: seq<Edge>, order: seq<string>, q: nat, j: nat)
    requires Forward(edges, order) && Distinct(order) && q < |order| && j < |order| && Edge(order[q], order[j]) in edges
    ensures q < j
  {
    var k :| 0 <= k < |edges| && edges[k] == Edge(order[q], order[j]);
    assert edges[k].src in order[..j];
    var p :| 0 <= p < j && order[p] == order[q];
  }

  // ---------- the order is determined ----------

  lemma {:induction false} PredecessorsBefore(edges: seq<Edge>, order: seq<string>, v: string, i: nat)
    requires Distinct(order) && i <= |order| && forall u :: Edge(u, v) in edges ==> u in order[..i]
    ensures LastPredecessor(edges, order, v) == LastPredecessor(edges, order[..i], v)
    decreases |order|
  {
    var n := |order| - 1;
    if i <= n {
      assert order[n] !in order[..i];
      assert order[..n][..i] == order[..i];
      PredecessorsBefore(edges, order[..n], v, i);
    } else {
      assert order[..i] == order;
    }
  }

  /** Once all predecessors are placed, what follows does not change who leaves the queue sooner. */
  lemma SoonerFromPrefix(edges: seq<Edge>, order: seq<string>, x: string, y: string, i: nat)
    requires Distinct(order) && i <= |order|
    requires forall u :: Edge(u, x) in edges || Edge(u, y) in edges ==> u in order[..i]
    ensures Sooner(edges, order, x, y) <==> Sooner(edges, order[..i], x, y)
  {
    hide Less, LastAt, Targets, LastPredecessor;
    PredecessorsBefore(edges, order, x, i);
    PredecessorsBefore(edges, order, y, i);
  }

  lemma SoonerAsymmetric(edges: seq<Edge>, order: seq<string>, x: string, y: string)
    requires Sooner(edges, order, x, y)
    ensures !Sooner(edges, order, y, x)
  {
    hide Less, LastAt, Targets, LastPredecessor;
    if Less(x, y) && Less(y, x) {
      LessTransitive(x, y, x);
    }
    LessIrreflexive(x);
  }

  lemma PredecessorsPlaced(edges: seq<Edge>, order: seq<string>, i: nat)
    requires Forward(edges, order) && i < |order|
    ensures forall u :: Edge(u, order[i]) in edges ==> u in order[..i]
  {
    forall u | Edge(u, order[i]) in edges
      ensures u in order[..i]
    {
      var k :| 0 <= k < |edges| && edges[k] == Edge(u, order[i]);
    }
  }

  lemma {:induction false} SamePrefix(nodes: seq<string>, edges: seq<Edge>, a: seq<string>, b: seq<string>, i: nat)
    requires IsTopologicalOrder(nodes, edges, a) && FirstInFirstOut(edges, a, a)
    requires IsTopologicalOrder(nodes, edges, b) && FirstInFirstOut(edges, b, b)
    requires i <= |a| && i <= |b|
    ensures a[..i] == b[..i]
  {
    hide IsTopologicalOrder, FirstInFirstOut;
    if i > 0 {
      SamePrefix(nodes, edges, a, b, i - 1);
      SameNext(nodes, edges, a, b, i - 1);
      assert a[..i] == a[..i - 1] + [a[i - 1]] && b[..i] == b[..i - 1] + [b[i - 1]];
    }
  }

  lemma SameNext(nodes: seq<string>, edges: seq<Edge>, a: seq<string>, b: seq<string>, n: nat)
    requires IsTopologicalOrder(nodes, edges, a) && FirstInFirstOut(edges, a, a)
    requires IsTopologicalOrder(nodes, edges, b) && FirstInFirstOut(edges, b, b)
    requires n < |a| && n < |b| && a[..n] == b[..n]
    ensures a[n] == b[n]
  {
    hide Sooner;
    if a[n] != b[n] {
      var x, y := a[n], b[n];
      LaterElsewhere(nodes, a, b, n);
      LaterElsewhere(nodes, b, a, n);
      var j :| n < j < |a| && a[j] == y;
      var k :| n < k < |b| && b[k] == x;
      assert Sooner(edges, a, x, y) && Sooner(edges, b, y, x);
      PredecessorsPlaced(edges, a, n);
      PredecessorsPlaced(edges, b, n);
      SoonerFromPrefix(edges, a, x, y, n);
      SoonerFromPrefix(edges, b, y, x, n);
      SoonerAsymmetric(edges, a[..n], x, y);
    }
  }

  lemma LaterElsewhere(nodes: seq<string>, a: seq<string>, b: seq<string>, n: nat)
    requires multiset(a) == multiset(nodes) == multiset(b) && Distinct(b)
    requires n < |a| && n < |b| && a[..n] == b[..n] && a[n] != b[n]
    ensures exists j :: n < j < |a| && a[j] == b[n]
  {
    forall m | 0 <= m < n
      ensures a[m] == b[m]
    {
      assert a[..n][m] == b[..n][m];
    }
    assert b[n] in multiset(a);
    var j :| 0 <= j < |a| && a[j] == b[n];
  }

  /** Only one order is both topological and first in, first out: validation has one result. */
  lemma OrderUnique(nodes: seq<string>, edges: seq<Edge>, a: seq<string>, b: seq<string>)
    requires IsTopologicalOrder(nodes, edges, a) && FirstInFirstOut(edges, a, a)
    requires IsTopologicalOrder(nodes, edges, b) && FirstInFirstOut(edges, b, b)
    ensures a == b
  {
    hide IsTopologicalOrder, FirstInFirstOut;
    SameLength(nodes, edges, a, b);
    SamePrefix(nodes, edges, a, b, |a|);
    assert a[..|a|] == a && b[..|b|] == b;
  }

  lemma SameLength(nodes: seq<string>, edges: seq<Edge>, a: seq<string>, b: seq<string>)
    requires IsTopologicalOrder(nodes, edges, a) && IsTopologicalOrder(nodes, edges, b)
    ensures |a| == |b|
  {
    hide Distinct, Forward;
    assert |a| == |multiset(a)| == |multiset(b)| == |b|;
  }

  /** Hence the outcome, errors included, is a function of the workflow. */
  lemma OutcomeUnique(nodes: seq<string>, edges: seq<Edge>, r: Result<seq<string>, DagError>, r': Result<seq<string>, DagError>)
    requires DagOutcome(nodes, edges, r) && DagOutcome(nodes, edges, r')
    ensures r == r'
  {
    hide HasCycle, IsTopologicalOrder, FirstInFirstOut;
    if !Distinct(nodes) {
      FirstDuplicateUnique(nodes, r, r');
    } else if !Closed(nodes, edges) {
      FirstMissingUnique(nodes, edges, r, r');
    } else if !HasCycle(edges) {
      OrderUnique(nodes, edges, r.value, r'.value);
    }
  }

  lemma FirstDuplicateUnique(nodes: seq<string>, r: Result<seq<string>, DagError>, r': Result<seq<string>, DagError>)
    requires exists i :: 0 <= i < |nodes| && Distinct(nodes[..i]) && nodes[i] in nodes[..i] && r == Err(DuplicateNode(nodes[i]))
    requires exists i :: 0 <= i < |nodes| && Distinct(nodes[..i]) && nodes[i] in nodes[..i] && r' == Err(DuplicateNode(nodes[i]))
    ensures r == r'
  {
    var i :| 0 <= i < |nodes| && Distinct(nodes[..i]) && nodes[i] in nodes[..i] && r == Err(DuplicateNode(nodes[i]));
    var j :| 0 <= j < |nodes| && Distinct(nodes[..j]) && nodes[j] in nodes[..j] && r' == Err(DuplicateNode(nodes[j]));
    if i < j {
      DuplicateSpoils(nodes, i, j);
    } else if j < i {
      DuplicateSpoils(nodes, j, i);
    }
  }

  lemma DuplicateSpoils(nodes: seq<string>, i: nat, j: nat)
    requires i < j <= |nodes| && nodes[i] in nodes[..i]
    ensures !Distinct(nodes[..j])
  {
    var p :| 0 <= p < i && nodes[..i][p] == nodes[i];
    assert nodes[..j][p] == nodes[..j][i];
  }

  lemma FirstMissingUnique(nodes: seq<string>, edges: seq<Edge>, r: Result<seq<string>, DagError>, r': Result<seq<string>, DagError>)
    requires Distinct(nodes) && !Closed(nodes, edges) && DagOutcome(nodes, edges, r) && DagOutcome(nodes, edges, r')
    ensures r == r'
  {
    hide Declared, HasCycle;
    var i :| 0 <= i < |edges| && Closed(nodes, edges[..i]) && !Declared(nodes, edges[i])
      && r == Err(MissingNode(if edges[i].src !in nodes then edges[i].src else edges[i].dst));
    var j :| 0 <= j < |edges| && Closed(nodes, edges[..j]) && !Declared(nodes, edges[j])
      && r' == Err(MissingNode(if edges[j].src !in nodes then edges[j].src else edges[j].dst));
    if i < j {
      MissingSpoils(nodes, edges, i, j);
    } else if j < i {
      MissingSpoils(nodes, edges, j, i);
    }
  }

  lemma MissingSpoils(nodes: seq<string>, edges: seq<Edge>, i: nat, j: nat)
    requires i < j <= |edges| && !Declared(nodes, edges[i])
    ensures !Closed(nodes, edges[..j])
  {
    hide Declared;
    assert !Declared(nodes, edges[..j][i]);
  }

  // ---------- the algorithm's state ----------

  /** The maps agree with the edges still pending; entries with no pending edge are placed or ready. */
  ghost predicate Counted(nodes: seq<string>, edges: seq<Edge>, done: set<string>, released: seq<string>,
                          indegree: map<string, nat>)
  {
    && indegree.Keys == Members(nodes)
    && forall v :: v in indegree ==> indegree[v] + Count(released, v) == Pending(edges, done, v)
  }

  ghost predicate Queued(indegree: map<string, nat>, placed: seq<string>) {
    && Distinct(placed)
    && (forall v :: v in placed ==> v in indegree)
    && (forall v :: v in indegree ==> (indegree[v] == 0 <==> v in placed))
  }

  ghost predicate Untaken(nodes: seq<string>, edges: seq<Edge>, done: set<string>, outgoing: map<string, seq<string>>) {
    && outgoing.Keys == Members(nodes)
    && forall u :: u in outgoing ==> outgoing[u] == if u in done then [] else Targets(edges, u)
  }

  ghost predicate KahnState(nodes: seq<string>, edges: seq<Edge>, indegree: map<string, nat>,
                            outgoing: map<string, seq<string>>, ready: seq<string>, order: seq<string>)
  {
    && Counted(nodes, edges, Members(order), [], indegree)
    && Queued(indegree, order + ready)
    && Untaken(nodes, edges, Members(order), outgoing)
    && Forward(edges, order)
    && FirstInFirstOut(edges, order, order + ready)
  }

  /** What the first k edges out of the last placed node have released. */
  ghost predicate ReleasedBy(edges: seq<Edge>, order: seq<string>, placed: seq<string>, k: nat)
    requires order != []
  {
    forall v :: v in placed && LastPredecessor(edges, order, v) == |order| ==>
      LastAt(Targets(edges, order[|order| - 1]), v) <= k
  }

  /** Placing a node changes the last predecessor of no node that is placed or ready. */
  lemma PlaceKeepsQueue(nodes: seq<string>, edges: seq<Edge>, indegree: map<string, nat>, order: seq<string>, u: string, placed: seq<string>)
    requires Counted(nodes, edges, Members(order), [], indegree) && Queued(indegree, placed) && u !in order
    requires FirstInFirstOut(edges, order, placed)
    ensures FirstInFirstOut(edges, order + [u], placed) && ReleasedBy(edges, order + [u], placed, 0)
  {
    hide Pending, Less, LastAt, Targets;
    var order' := order + [u];
    assert order'[..|order|] == order;
    forall v | v in placed
      ensures LastPredecessor(edges, order', v) == LastPredecessor(edges, order, v)
    {
      PendingZero(edges, Members(order), v);
      assert indegree[v] + Count([], v) == Pending(edges, Members(order), v);
    }
    forall i, j | 0 <= i < j < |placed|
      ensures Sooner(edges, order', placed[i], placed[j])
    {
      assert Sooner(edges, order, placed[i], placed[j]);
      assert placed[i] in placed && placed[j] in placed;
    }
  }

  /** A node released by the last placed node joins the queue behind all others. */
  lemma ReleaseKeepsQueue(edges: seq<Edge>, order: seq<string>, placed: seq<string>, w: string, k: nat)
    requires order != [] && FirstInFirstOut(edges, order, placed) && ReleasedBy(edges, order, placed, k)
    requires Edge(order[|order| - 1], w) in edges && LastAt(Targets(edges, order[|order| - 1]), w) == k + 1
    ensures FirstInFirstOut(edges, order, placed + [w]) && ReleasedBy(edges, order, placed + [w], k + 1)
  {
    hide Less, LastAt, Targets, LastPredecessor;
    assert LastPredecessor(edges, order, w) == |order| by { ReleasedLast(edges, order, w); }
    forall v | v in placed
      ensures Sooner(edges, order, v, w)
    {
      assert LastPredecessor(edges, order, v) <= |order|;
    }
  }

  lemma ReleasedLast(edges: seq<Edge>, order: seq<string>, w: string)
    requires order != [] && Edge(order[|order| - 1], w) in edges
    ensures LastPredecessor(edges, order, w) == |order|
  {
  }

  /** An occurrence that no later one follows is the last. */
  lemma {:induction false} LastOccurrence(t: seq<string>, k: nat, w: string)
    requires k < |t| && t[k] == w && Count(t, w) <= Count(t[..k + 1], w)
    ensures LastAt(t, w) == k + 1
  {
    if k + 1 < |t| {
      var init, last := t[..|t| - 1], t[|t| - 1];
      assert t == init + [last] && init[..k + 1] == t[..k + 1];
      assert init == init[..k + 1] + init[k + 1..];
      LastOccurrence(init, k, w);
    }
  }

  lemma {:induction false} TargetIsEdge(edges: seq<Edge>, u: string, k: nat)
    requires k < |Targets(edges, u)|
    ensures Edge(u, Targets(edges, u)[k]) in edges
  {
    var init, last := edges[..|edges| - 1], edges[|edges| - 1];
    if k < |Targets(init, u)| {
      TargetIsEdge(init, u, k);
    }
    assert edges == init + [last];
  }

  lemma CountAppend(s: seq<string>, w: string, v: string)
    ensures Count(s + [w], v) == Count(s, v) + if v == w then 1 else 0
  {
  }

  lemma CountPrefix(s: seq<string>, k: nat, v: string)
    requires k < |s|
    ensures Count(s[..k], v) + (if v == s[k] then 1 else 0) <= Count(s, v)
  {
    assert s == s[..k] + [s[k]] + s[k + 1..];
  }

  /** A ready node goes to the end of the order, and edges into it all come from the order. */
  lemma PlaceNode(nodes: seq<string>, edges: seq<Edge>, indegree: map<string, nat>,
                  outgoing: map<string, seq<string>>, ready: seq<string>, order: seq<string>)
    requires KahnState(nodes, edges, indegree, outgoing, ready, order) && ready != []
    ensures ready[0] !in order && ready[0] in indegree
    ensures Forward(edges, order + [ready[0]])
    ensures Queued(indegree, (order + [ready[0]]) + ready[1..])
  {
    hide FirstInFirstOut;
    var u, all := ready[0], order + ready;
    assert all[|order|] == u;
    assert (order + [u]) + ready[1..] == all;
    assert u in all;
    forall i | 0 <= i < |order|
      ensures order[i] != u
    {
      assert all[i] == order[i];
    }
    PendingZero(edges, Members(order), u);
    assert indegree[u] == 0 && Count([], u) == 0;
    var order' := order + [u];
    forall k, j | 0 <= k < |edges| && 0 <= j < |order'| && edges[k].dst == order'[j]
      ensures edges[k].src in order'[..j]
    {
      assert order'[..j] == order[..j];
    }
  }

  /** Taking u's adjacency list is what placing u calls for. */
  lemma TakeTargets(nodes: seq<string>, edges: seq<Edge>, order: seq<string>, u: string,
                    outgoing: map<string, seq<string>>)
    requires u !in order && Untaken(nodes, edges, Members(order), outgoing) && u in outgoing
    ensures Untaken(nodes, edges, Members(order + [u]), outgoing[u := []])
  {
    assert Members(order + [u]) == Members(order) + {u};
  }

  /** Once all of u's targets are released, the counts are those of the order with u placed. */
  lemma PlacedCounts(nodes: seq<string>, edges: seq<Edge>, order: seq<string>, u: string, indegree: map<string, nat>)
    requires u !in order && Counted(nodes, edges, Members(order), Targets(edges, u), indegree)
    ensures Counted(nodes, edges, Members(order + [u]), [], indegree)
  {
    assert Members(order + [u]) == Members(order) + {u};
    forall v | v in indegree
      ensures indegree[v] + Count([], v) == Pending(edges, Members(order + [u]), v)
    {
      PendingStep(edges, Members(order), u, v);
    }
  }

  lemma PlacedBound(nodes: seq<string>, placed: seq<string>)
    requires Distinct(placed) && forall v :: v in placed ==> v in nodes
    ensures |placed| <= |nodes|
  {
    DistinctSet(placed);
    MembersBound(nodes);
    SubsetSize(Members(placed), Members(nodes));
  }

  lemma {:induction false} MembersBound(s: seq<string>)
    ensures |Members(s)| <= |s|
  {
    if s != [] {
      var init, last := s[..|s| - 1], s[|s| - 1];
      MembersBound(init);
      assert s == init + [last];
      assert Members(s) == Members(init) + {last};
    }
  }

  /** One decrement: the target has a pending edge, so the count cannot underflow. */
  lemma ReleaseOne(nodes: seq<string>, edges: seq<Edge>, done: set<string>, u: string, k: nat,
                   indegree: map<string, nat>, placed: seq<string>)
    requires Closed(nodes, edges) && u !in done && k < |Targets(edges, u)|
    requires Counted(nodes, edges, done, Targets(edges, u)[..k], indegree) && Queued(indegree, placed)
    ensures var w := Targets(edges, u)[k];
      && w in indegree && indegree[w] > 0
      && Counted(nodes, edges, done, Targets(edges, u)[..k + 1], indegree[w := indegree[w] - 1])
      && Queued(indegree[w := indegree[w] - 1], if indegree[w] == 1 then placed + [w] else placed)
  {
    hide Targets, Pending, Count, Closed;
    var t := Targets(edges, u);
    var w := t[k];
    TargetsDeclared(nodes, edges, u);
    PendingStep(edges, done, u, w);
    CountPrefix(t, k, w);
    assert t[..k + 1] == t[..k] + [w];
    forall v
      ensures Count(t[..k + 1], v) == Count(t[..k], v) + if v == w then 1 else 0
    {
      CountAppend(t[..k], w, v);
    }
  }

  /** With the queue empty, everything left out still has a pending edge. */
  lemma KahnDone(nodes: seq<string>, edges: seq<Edge>, indegree: map<string, nat>,
                 outgoing: map<string, seq<string>>, order: seq<string>)
    requires KahnState(nodes, edges, indegree, outgoing, [], order)
    ensures Distinct(order) && Forward(edges, order) && forall v :: v in order ==> v in nodes
    ensures forall v :: v in nodes && v !in order ==> Pending(edges, Members(order), v) > 0
    ensures FirstInFirstOut(edges, order, order)
  {
    hide FirstInFirstOut;
    assert order + [] == order;
    forall v | v in nodes && v !in order
      ensures Pending(edges, Members(order), v) > 0
    {
      assert v in indegree && indegree[v] + Count([], v) == Pending(edges, Members(order), v);
    }
  }

  lemma ConcatAssoc(a: seq<string>, b: seq<string>, c: seq<string>)
    ensures (a + b) + c == a + (b + c)
  {
  }

  lemma InitialState(nodes: seq<string>, edges: seq<Edge>, indegree: map<string, nat>,
                     outgoing: map<string, seq<string>>, ready: seq<string>)
    requires Counted(nodes, edges, {}, [], indegree) && Untaken(nodes, edges, {}, outgoing)
    requires ready == Ascending(set v | v in indegree && indegree[v] == 0)
    ensures KahnState(nodes, edges, indegree, outgoing, ready, [])
  {
    forall i, j | 0 <= i < j < |ready|
      ensures ready[i] != ready[j]
    {
      LessIrreflexive(ready[i]);
    }
    assert Members([]) == {} && [] + ready == ready;
  }

  // ---------- the algorithm ----------

  /** A count that reaches zero has met the last edge out of u to its node. */
  lemma LastRelease(nodes: seq<string>, edges: seq<Edge>, done: set<string>, u: string, k: nat, indegree: map<string, nat>)
    requires u !in done && k < |Targets(edges, u)|
    requires Counted(nodes, edges, done, Targets(edges, u)[..k + 1], indegree)
    requires Targets(edges, u)[k] in indegree && indegree[Targets(edges, u)[k]] == 0
    ensures LastAt(Targets(edges, u), Targets(edges, u)[k]) == k + 1
  {
    hide Targets, Pending, LastAt;
    var w := Targets(edges, u)[k];
    PendingStep(edges, done, u, w);
    LastOccurrence(Targets(edges, u), k, w);
  }

  lemma ReleasedMore(edges: seq<Edge>, order: seq<string>, placed: seq<string>, k: nat)
    requires order != [] && ReleasedBy(edges, order, placed, k)
    ensures ReleasedBy(edges, order, placed, k + 1)
  {
  }

  /** The inner loop: release every target of u, queueing those with nothing left pending. */
  method ReleaseAll(nodes: seq<string>, edges: seq<Edge>, ghost before: seq<string>, u: string, next: seq<string>,
                    indegree0: map<string, nat>, ghost order: seq<string>, ready0: seq<string>)
    returns (indegree: map<string, nat>, ready: seq<string>)
    requires Closed(nodes, edges) && u !in before && next == Targets(edges, u)
    requires Counted(nodes, edges, Members(before), [], indegree0) && Queued(indegree0, order + ready0)
    requires order != [] && order[|order| - 1] == u && FirstInFirstOut(edges, order, order + ready0)
    requires ReleasedBy(edges, order, order + ready0, 0)
    ensures Counted(nodes, edges, Members(before), next, indegree) && Queued(indegree, order + ready)
    ensures FirstInFirstOut(edges, order, order + ready)
  {
    hide Targets, Pending, Count, FirstInFirstOut, ReleasedBy, LastAt;
    indegree, ready := indegree0, ready0;
    assert next[..0] == [];
    for k := 0 to |next|
      invariant Counted(nodes, edges, Members(before), next[..k], indegree)
      invariant Queued(indegree, order + ready)
      invariant FirstInFirstOut(edges, order, order + ready) && ReleasedBy(edges, order, order + ready, k)
    {
      var w := next[k];
      ReleaseOne(nodes, edges, Members(before), u, k, indegree, order + ready);
      ConcatAssoc(order, ready, [w]);
      indegree := indegree[w := indegree[w] - 1];
      if indegree[w] == 0 {
        LastRelease(nodes, edges, Members(before), u, k, indegree);
        TargetIsEdge(edges, u, k);
        ReleaseKeepsQueue(edges, order, order + ready, w, k);
        ready := ready + [w];
      } else {
        ReleasedMore(edges, order, order + ready, k);
      }
    }
    assert next[..|next|] == next;
  }

  /** The main loop, from the initial ready queue. */
  method Kahn(nodes: seq<string>, edges: seq<Edge>, indegree0: map<string, nat>, outgoing0: map<string, seq<string>>)
    returns (order: seq<string>)
    requires Distinct(nodes) && Closed(nodes, edges)
    requires Counted(nodes, edges, {}, [], indegree0) && Untaken(nodes, edges, {}, outgoing0)
    ensures Distinct(order) && Forward(edges, order) && forall v :: v in order ==> v in nodes
    ensures forall v :: v in nodes && v !in order ==> Pending(edges, Members(order), v) > 0
    ensures FirstInFirstOut(edges, order, order)
  {
    hide Targets, Pending, Count, FirstInFirstOut, ReleasedBy, LastPredecessor, Forward, Ascending, Less;
    var indegree, outgoing := indegree0, outgoing0;
    var ready := Ascending(set v | v in indegree && indegree[v] == 0);
    order := [];
    InitialState(nodes, edges, indegree, outgoing, ready);
    while ready != []
      invariant KahnState(nodes, edges, indegree, outgoing, ready, order)
      decreases |nodes| - |order|
    {
      PlaceNode(nodes, edges, indegree, outgoing, ready, order);
      PlacedBound(nodes, order + ready);
      var u := ready[0];
      PlaceKeepsQueue(nodes, edges, indegree, order, u, order + ready);
      ConcatAssoc(order, [u], ready[1..]);
      assert ready == [u] + ready[1..];
      TakeTargets(nodes, edges, order, u, outgoing);
      ghost var before := order;
      ready, order := ready[1..], order + [u];
      var next := outgoing[u];
      outgoing := outgoing[u := []];
      indegree, ready := ReleaseAll(nodes, edges, before, u, next, indegree, order, ready);
      PlacedCounts(nodes, edges, before, u, indegree);
    }
    KahnDone(nodes, edges, indegree, outgoing, order);
  }

  /** One more edge: its target gains a pending edge, its source gains a target. */
  lemma EdgeStep(nodes: seq<string>, edges: seq<Edge>, j: nat, indegree: map<string, nat>,
                 outgoing: map<string, seq<string>>)
    requires j < |edges| && Declared(nodes, edges[j])
    requires Counted(nodes, edges[..j], {}, [], indegree) && Untaken(nodes, edges[..j], {}, outgoing)
    ensures var e := edges[j];
      && e.dst in indegree && e.src in outgoing
      && Counted(nodes, edges[..j + 1], {}, [], indegree[e.dst := indegree[e.dst] + 1])
      && Untaken(nodes, edges[..j + 1], {}, outgoing[e.src := outgoing[e.src] + [e.dst]])
  {
    hide Pending, Targets;
    var e, es := edges[j], edges[..j + 1];
    forall v
      ensures Pending(es, {}, v) == Pending(edges[..j], {}, v) + if e.dst == v then 1 else 0
      ensures Targets(es, v) == Targets(edges[..j], v) + if e.src == v then [e.dst] else []
    {
      EdgeCounts(edges, j, v);
    }
  }

  lemma EdgeCounts(edges: seq<Edge>, j: nat, v: string)
    requires j < |edges|
    ensures Pending(edges[..j + 1], {}, v) == Pending(edges[..j], {}, v) + if edges[j].dst == v then 1 else 0
    ensures Targets(edges[..j + 1], v) == Targets(edges[..j], v) + if edges[j].src == v then [edges[j].dst] else []
  {
    var es := edges[..j + 1];
    assert es[..|es| - 1] == edges[..j];
  }

  /** An order of full length holds every node exactly once. */
  lemma FullOrder(nodes: seq<string>, order: seq<string>)
    requires Distinct(nodes) && Distinct(order) && |order| == |nodes| && forall v :: v in order ==> v in nodes
    ensures multiset(order) == multiset(nodes)
  {
    DistinctSet(order);
    DistinctSet(nodes);
    var left := Members(nodes) - Members(order);
    assert Members(nodes) == Members(order) + left;
    assert left == {};
    forall v
      ensures multiset(order)[v] == multiset(nodes)[v]
    {
      assert v in Members(nodes) <==> v in Members(order);
    }
  }

  /** A short order leaves nodes that wait for one another. */
  lemma ShortOrder(nodes: seq<string>, edges: seq<Edge>, order: seq<string>)
    requires Distinct(nodes) && Closed(nodes, edges) && Distinct(order)
    requires forall v :: v in order ==> v in nodes
    requires forall v :: v in nodes && v !in order ==> Pending(edges, Members(order), v) > 0
    requires |order| != |nodes|
    ensures HasCycle(edges)
  {
    hide Pending, HasCycle;
    var left := Members(nodes) - Members(order);
    SomeLeft(nodes, order);
    forall v | v in left
      ensures HasPredecessorIn(edges, left, v)
    {
      PendingZero(edges, Members(order), v);
      var k :| 0 <= k < |edges| && edges[k].dst == v && edges[k].src !in Members(order);
      assert Declared(nodes, edges[k]);
      assert edges[k].src in left && Edge(edges[k].src, v) in edges;
    }
    PredecessorsGiveCycle(edges, left);
  }

  /** An order of distinct declared nodes that is not as long as the declaration misses one. */
  lemma SomeLeft(nodes: seq<string>, order: seq<string>)
    requires Distinct(nodes) && Distinct(order) && |order| != |nodes|
    requires forall v :: v in order ==> v in nodes
    ensures Members(nodes) - Members(order) != {}
  {
    var left := Members(nodes) - Members(order);
    DistinctSet(order);
    DistinctSet(nodes);
    assert Members(nodes) == Members(order) + left;
    assert |Members(nodes)| == |Members(order)| + |left|;
  }

  /** First loop: declare every node once. */
  method DeclareNodes(nodes: seq<string>)
    returns (r: Result<(map<string, nat>, map<string, seq<string>>), DagError>)
    ensures r.Ok? <==> Distinct(nodes)
    ensures r.Ok? ==> Counted(nodes, [], {}, [], r.value.0) && Untaken(nodes, [], {}, r.value.1)
    ensures r.Err? ==> DagOutcome(nodes, [], Err(r.error)) && r.error.DuplicateNode?
  {
    var indegree: map<string, nat>, outgoing: map<string, seq<string>> := map[], map[];
    for i := 0 to |nodes|
      invariant Distinct(nodes[..i])
      invariant indegree == map v | v in Members(nodes[..i]) :: 0
      invariant outgoing == map v | v in Members(nodes[..i]) :: []
    {
      var id := nodes[i];
      if id in indegree {
        return Err(DuplicateNode(id));
      }
      indegree := indegree[id := 0];
      outgoing := outgoing[id := []];
    }
    assert nodes[..|nodes|] == nodes;
    r := Ok((indegree, outgoing));
  }

  /** Second loop: count every edge at its target and list it at its source. */
  method CountEdges(nodes: seq<string>, edges: seq<Edge>, indegree0: map<string, nat>, outgoing0: map<string, seq<string>>)
    returns (r: Result<(map<string, nat>, map<string, seq<string>>), DagError>)
    requires Distinct(nodes) && Counted(nodes, [], {}, [], indegree0) && Untaken(nodes, [], {}, outgoing0)
    ensures r.Ok? <==> Closed(nodes, edges)
    ensures r.Ok? ==> Counted(nodes, edges, {}, [], r.value.0) && Untaken(nodes, edges, {}, r.value.1)
    ensures r.Err? ==> DagOutcome(nodes, edges, Err(r.error)) && r.error.MissingNode?
  {
    hide Counted, Untaken;
    var indegree, outgoing := indegree0, outgoing0;
    assert edges[..0] == [];
    for j := 0 to |edges|
      invariant Closed(nodes, edges[..j])
      invariant Counted(nodes, edges[..j], {}, [], indegree)
      invariant Untaken(nodes, edges[..j], {}, outgoing)
    {
      var e := edges[j];
      CountedKeys(nodes, edges[..j], indegree);
      if e.src !in indegree {
        return Err(MissingNode(e.src));
      }
      if e.dst !in indegree {
        return Err(MissingNode(e.dst));
      }
      EdgeStep(nodes, edges, j, indegree, outgoing);
      indegree := indegree[e.dst := indegree[e.dst] + 1];
      outgoing := outgoing[e.src := outgoing[e.src] + [e.dst]];
    }
    assert edges[..|edges|] == edges;
    r := Ok((indegree, outgoing));
  }

  /**
   Validation succeeds exactly on distinct, declared, acyclic workflows, and then returns a
   topological order; every failure names the first offender of its kind.
   */
  method ValidateDag(nodes: seq<string>, edges: seq<Edge>) returns (r: Result<seq<string>, DagError>)
    ensures DagOutcome(nodes, edges, r)
    ensures r.Ok? <==> Distinct(nodes) && Closed(nodes, edges) && !HasCycle(edges)
  {
    hide HasCycle, Counted, Untaken, FirstInFirstOut;
    var declared := DeclareNodes(nodes);
    if declared.Err? {
      return Err(declared.error);
    }
    var counted := CountEdges(nodes, edges, declared.value.0, declared.value.1);
    if counted.Err? {
      return Err(counted.error);
    }
    var order := Kahn(nodes, edges, counted.value.0, counted.value.1);
    if |order| == |nodes| {
      FullOrder(nodes, order);
      OrderRulesOutCycles(nodes, edges, order);
      r := Ok(order);
    } else {
      ShortOrder(nodes, edges, order);
      r := Err(Cycle);
    }
  }

  lemma CountedKeys(nodes: seq<string>, edges: seq<Edge>, indegree: map<string, nat>)
    requires Counted(nodes, edges, {}, [], indegree)
    ensures forall v :: v in indegree <==> v in nodes
  {
    assert forall v :: v in Members(nodes) <==> v in nodes;
  }
}
