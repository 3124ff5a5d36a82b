/**
 The one-way fixed-effects estimator over a long-format panel
 (crates/tdw-analytics-econometrics/src/panel.rs).
 */
module Panel {
  import opened Results
  import opened RealSums
  import opened LinearAlgebra
  import opened CholeskyFactor
  import opened LeastSquares
  import opened Ols
  import opened WithinTransform
  import opened Statistics

  datatype PanelSummary = PanelSummary(
    coefficients: seq<Coefficient>,
    rSquared: real,
    nEntities: nat,
    nObs: nat)

  function Label(entity: seq<int>): Labels { i => if 0 <= i < |entity| then entity[i] else 0 }

  /** The entities seen among the first n observations. */
  function Entities(entity: seq<int>, n: nat): set<int>
    requires n <= |entity|
  {
    set i | 0 <= i < n :: entity[i]
  }

  /** The observations of entity e among the first n, in input order. */
  function IndicesOf(entity: seq<int>, e: int, n: nat): (r: seq<nat>)
    requires n <= |entity|
    ensures forall p :: 0 <= p < |r| ==> r[p] < n
  {
    if n == 0 then []
    else if entity[n - 1] == e then IndicesOf(entity, e, n - 1) + [n - 1]
    else IndicesOf(entity, e, n - 1)
  }

  function Occurrences(r: seq<nat>, i: nat): nat { multiset(r)[i] }

  /** The index list of e holds each observation of e once, and nothing else. */
  lemma {:induction false} IndicesOfExact(entity: seq<int>, e: int, n: nat, i: nat)
    requires n <= |entity|
    ensures Occurrences(IndicesOf(entity, e, n), i) == if i < n && entity[i] == e then 1 else 0
  {
    hide Occurrences;
    NoOccurrences(i);
    if n > 0 {
      IndicesOfExact(entity, e, n - 1, i);
      if entity[n - 1] == e {
        MultisetAppend(IndicesOf(entity, e, n - 1), n - 1, i);
      }
    }
  }

  lemma NoOccurrences(i: nat)
    ensures Occurrences([], i) == 0
  {
  }

  lemma MultisetAppend(r: seq<nat>, last: nat, i: nat)
    ensures Occurrences(r + [last], i) == Occurrences(r, i) + if i == last then 1 else 0
  {
  }

  lemma {:induction false} NoIndices(entity: seq<int>, e: int, n: nat)
    requires n <= |entity| && forall i :: 0 <= i < n ==> entity[i] != e
    ensures IndicesOf(entity, e, n) == []
  {
    if n > 0 { NoIndices(entity, e, n - 1); }
  }

  function GroupsOf(entity: seq<int>, n: nat): map<int, seq<nat>>
    requires n <= |entity|
  {
    map e | e in Entities(entity, n) :: IndicesOf(entity, e, n)
  }

  method Validate(entity: seq<int>, y: seq<real>, x: seq<seq<real>>) returns (r: Result<nat, EconometricsError>)
    ensures r.Ok? <==> WellFormed(entity, y, x)
    ensures r.Ok? ==> r.value == |x[0]|
    ensures r.Err? ==> r.error == ValidationError(entity, y, x)
  {
    var n := |y|;
    if n == 0 || |entity| != n || |x| != n {
      return Err(RowMismatch(n, if |x| > |entity| then |x| else |entity|));
    }
    var k := |x[0]|;
    if k == 0 || exists i :: 0 <= i < |x| && |x[i]| != k {
      return Err(EmptyDesign);
    }
    r := Ok(k);
  }

  function ValidationError(entity: seq<int>, y: seq<real>, x: seq<seq<real>>): EconometricsError {
    if |y| == 0 || |entity| != |y| || |x| != |y|
    then RowMismatch(|y|, if |x| > |entity| then |x| else |entity|)
    else EmptyDesign
  }

  ghost predicate WellFormed(entity: seq<int>, y: seq<real>, x: seq<seq<real>>) {
    && |y| > 0 && |entity| == |y| && |x| == |y|
    && |x[0]| > 0
    && forall i :: 0 <= i < |x| ==> |x[i]| == |x[0]|
  }

  /** The regressor rows as a matrix. */
  function Regressors(x: seq<seq<real>>): Mat {
    (i, j) => if 0 <= i < |x| && 0 <= j < |x[i]| then x[i][j] else 0.0
  }

  function ToColumns(x: seq<seq<real>>, k: nat): seq<seq<real>>
    requires forall i :: 0 <= i < |x| ==> |x[i]| == k
  {
    seq(k, j requires 0 <= j < k => seq(|x|, i requires 0 <= i < |x| => x[i][j]))
  }

  method GroupIndices(entity: seq<int>) returns (groups: map<int, seq<nat>>)
    ensures groups == GroupsOf(entity, |entity|)
  {
    groups := map[];
    for i := 0 to |entity|
      invariant groups == GroupsOf(entity, i)
    {
      var e := entity[i];
      GroupsStep(entity, i);
      groups := Appended(groups, e, i);
    }
  }

  lemma GroupsStep(entity: seq<int>, i: nat)
    requires i < |entity|
    ensures GroupsOf(entity, i + 1) == Appended(GroupsOf(entity, i), entity[i], i)
  {
    var e := entity[i];
    var g, g' := GroupsOf(entity, i), GroupsOf(entity, i + 1);
    assert Entities(entity, i + 1) == Entities(entity, i) + {e};
    if e !in g {
      forall p | 0 <= p < i
        ensures entity[p] != e
      {
        assert entity[p] in Entities(entity, i);
      }
      NoIndices(entity, e, i);
    }
    forall d | d in g'
      ensures g'[d] == Appended(g, e, i)[d]
    {
      assert g'[d] == IndicesOf(entity, d, i + 1);
    }
    assert g'.Keys == Appended(g, e, i).Keys;
  }

  /** The map after `entry(e).or_default().push(i)`. */
  function Appended(g: map<int, seq<nat>>, e: int, i: nat): map<int, seq<nat>> {
    g[e := (if e in g then g[e] else []) + [i]]
  }

  /** Mean of the entries at the given positions. */
  function MeanAt(values: seq<real>, indices: seq<nat>): real
    requires |indices| > 0 && forall p :: 0 <= p < |indices| ==> indices[p] < |values|
  {
    Sum(AsVec(Picked(values, indices)), |indices|) / |indices| as real
  }

  function Picked(values: seq<real>, indices: seq<nat>): (r: seq<real>)
    requires forall p :: 0 <= p < |indices| ==> indices[p] < |values|
    ensures |r| == |indices|
  {
    seq(|indices|, p requires 0 <= p < |indices| => values[indices[p]])
  }

  /** The entries at `indices` lost their mean, once per occurrence of the index. */
  ghost predicate Demeaned(before: seq<real>, after: seq<real>, indices: seq<nat>)
    requires forall p :: 0 <= p < |indices| ==> indices[p] < |before|
  {
    && |after| == |before|
    && (if |indices| == 0 then after == before
        else LostMean(before, after, indices, MeanAt(before, indices)))
  }

  ghost predicate LostMean(before: seq<real>, after: seq<real>, indices: seq<nat>, mean: real) {
    && |after| == |before|
    && forall i: nat :: i < |before| ==> after[i] == before[i] - Occurrences(indices, i) as real * mean
  }

  lemma LostMeanStep(before: seq<real>, now: seq<real>, indices: seq<nat>, mean: real, last: nat)
    requires LostMean(before, now, indices, mean) && last < |now|
    ensures LostMean(before, now[last := now[last] - mean], indices + [last], mean)
  {
    hide Occurrences;
    forall i: nat | i < |before|
      ensures now[last := now[last] - mean][i] == before[i] - Occurrences(indices + [last], i) as real * mean
    {
      MultisetAppend(indices, last, i);
      OneMore(before[i], now[i], Occurrences(indices, i), mean);
    }
  }

  lemma OneMore(before: real, now: real, times: nat, mean: real)
    requires now == before - times as real * mean
    ensures now - mean == before - (times + 1) as real * mean
  {
  }

  /** Subtract the mean of the entries at `indices` from each of them, in place. */
  method DemeanInPlace(values: array<real>, indices: seq<nat>)
    requires forall p :: 0 <= p < |indices| ==> indices[p] < values.Length
    modifies values
    ensures Demeaned(old(values[..]), values[..], indices)
  {
    hide Sum, Dot, MeanAt;
    if |indices| == 0 {
      return;
    }
    ghost var before := values[..];
    var mean := MeanAt(values[..], indices);
    for p := 0 to |indices|
      invariant LostMean(before, values[..], indices[..p], mean)
    {
      var i := indices[p];
      assert indices[..p + 1] == indices[..p] + [i];
      LostMeanStep(before, values[..], indices[..p], mean, i);
      ghost var now := values[..];
      values[i] := values[i] - mean;
      assert values[..] == now[i := now[i] - mean];
    }
    assert indices[..|indices|] == indices;
  }

  // ---------- a group's mean over its index list ----------

  lemma {:induction false} PickedSum(entity: seq<int>, values: seq<real>, e: int, n: nat)
    requires n <= |entity| == |values|
    ensures Sum(AsVec(Picked(values, IndicesOf(entity, e, n))), |IndicesOf(entity, e, n)|) ==
            GroupSum(Label(entity), AsVec(values), e, n)
  {
    hide Sum, Dot;
    var m := Member(Label(entity), e);
    if n == 0 {
      SumZero(AsVec(Picked(values, [])), 0);
      DotZero(m, AsVec(values), 0);
    } else {
      PickedSum(entity, values, e, n - 1);
      DotStep(m, AsVec(values), n - 1);
      if entity[n - 1] == e {
        PickedStep(values, IndicesOf(entity, e, n - 1), n - 1, IndicesOf(entity, e, n));
        assert m(n - 1) == 1.0 && AsVec(values)(n - 1) == values[n - 1];
      } else {
        assert m(n - 1) == 0.0;
      }
    }
  }

  lemma {:induction false} IndicesCount(entity: seq<int>, e: int, n: nat)
    requires n <= |entity|
    ensures |IndicesOf(entity, e, n)| as real == GroupSize(Label(entity), e, n)
  {
    hide Sum, Dot;
    var m := Member(Label(entity), e);
    if n == 0 {
      DotZero(m, Ones(), 0);
    } else {
      IndicesCount(entity, e, n - 1);
      DotStep(m, Ones(), n - 1);
      assert m(n - 1) == if entity[n - 1] == e then 1.0 else 0.0;
    }
  }

  lemma PickedStep(values: seq<real>, r: seq<nat>, i: nat, r': seq<nat>)
    requires r' == r + [i] && i < |values|
    requires (forall p :: 0 <= p < |r| ==> r[p] < |values|) && (forall p :: 0 <= p < |r'| ==> r'[p] < |values|)
    ensures |r'| == |r| + 1
    ensures Sum(AsVec(Picked(values, r')), |r'|) == Sum(AsVec(Picked(values, r)), |r|) + values[i]
  {
    hide Sum, Picked, AsVec;
    PickedAppend(values, r, i, r');
    AppendSum(Picked(values, r), values[i]);
  }

  lemma PickedAppend(values: seq<real>, r: seq<nat>, i: nat, r': seq<nat>)
    requires r' == r + [i] && i < |values|
    requires (forall p :: 0 <= p < |r| ==> r[p] < |values|) && (forall p :: 0 <= p < |r'| ==> r'[p] < |values|)
    ensures Picked(values, r') == Picked(values, r) + [values[i]]
  {
  }

  lemma AppendSum(u: seq<real>, w: real)
    ensures Sum(AsVec(u + [w]), |u| + 1) == Sum(AsVec(u), |u|) + w
  {
    var f, f' := AsVec(u), AsVec(u + [w]);
    SumCong(f, f', |u|);
    assert f'(|u|) == w;
  }

  lemma GroupMeanAt(entity: seq<int>, values: seq<real>, i: nat)
    requires i < |entity| == |values|
    ensures |IndicesOf(entity, entity[i], |entity|)| > 0
    ensures MeanAt(values, IndicesOf(entity, entity[i], |entity|)) ==
            GroupMean(Label(entity), AsVec(values), entity[i], |entity|)
  {
    hide Sum, Dot, GroupSum, GroupSize;
    GroupSizePositive(Label(entity), |entity|, i);
    IndicesCount(entity, entity[i], |entity|);
    PickedSum(entity, values, entity[i], |entity|);
  }

  /** The series with the entities in `done` already demeaned. */
  function PartlyWithin(entity: seq<int>, v: seq<real>, done: set<int>): (r: seq<real>)
    requires |entity| == |v|
    ensures |r| == |v|
  {
    seq(|v|, i requires 0 <= i < |v| => if entity[i] in done then Within(Label(entity), AsVec(v), |v|)(i) else v[i])
  }

  lemma DemeanStep(entity: seq<int>, v: seq<real>, done: set<int>, e: int, before: seq<real>, after: seq<real>)
    requires |entity| == |v| && e in Entities(entity, |entity|) && e !in done
    requires before == PartlyWithin(entity, v, done)
    requires Demeaned(before, after, IndicesOf(entity, e, |entity|))
    ensures after == PartlyWithin(entity, v, done + {e})
  {
    hide Sum, Dot, GroupMean, MeanAt, IndicesOf, Occurrences, Within, Label, AsVec;
    var r := IndicesOf(entity, e, |entity|);
    var w :| 0 <= w < |entity| && entity[w] == e;
    GroupMeanAt(entity, v, w);
    SamePicks(entity, v, done, e);
    MeanAtCong(before, v, r);
    var mean := GroupMean(Label(entity), AsVec(v), e, |v|);
    assert LostMean(before, after, r, mean);
    forall i: nat | i < |v|
      ensures after[i] == PartlyWithin(entity, v, done + {e})[i]
    {
      IndicesOfExact(entity, e, |entity|, i);
      DemeanEntry(before[i], after[i], Occurrences(r, i), mean);
      WithinEntryAt(entity, v, i);
    }
  }

  lemma WithinEntryAt(entity: seq<int>, v: seq<real>, i: nat)
    requires i < |entity| == |v|
    ensures Within(Label(entity), AsVec(v), |v|)(i) == v[i] - GroupMean(Label(entity), AsVec(v), entity[i], |v|)
  {
    hide Sum, Dot, GroupMean;
  }

  lemma DemeanEntry(before: real, after: real, times: nat, mean: real)
    requires after == before - times as real * mean && times <= 1
    ensures after == if times == 1 then before - mean else before
  {
  }

  lemma SamePicks(entity: seq<int>, v: seq<real>, done: set<int>, e: int)
    requires |entity| == |v| && e !in done
    ensures Picked(PartlyWithin(entity, v, done), IndicesOf(entity, e, |entity|)) ==
            Picked(v, IndicesOf(entity, e, |entity|))
  {
    hide Sum, Dot, GroupMean;
    var r := IndicesOf(entity, e, |entity|);
    forall p | 0 <= p < |r|
      ensures entity[r[p]] == e
    {
      var i: nat := r[p];
      assert i in r;
      IndicesOfExact(entity, e, |entity|, i);
    }
  }

  lemma MeanAtCong(u: seq<real>, v: seq<real>, r: seq<nat>)
    requires |r| > 0 && |u| == |v| && forall p :: 0 <= p < |r| ==> r[p] < |u|
    requires Picked(u, r) == Picked(v, r)
    ensures MeanAt(u, r) == MeanAt(v, r)
  {
  }

  // ---------- the estimator ----------

  /** The transformed data really is the within transform of the raw panel. */
  lemma WithinColumns(entity: seq<int>, x: seq<seq<real>>, k: nat, cols: seq<seq<real>>)
    requires |entity| == |x| && k > 0 && |cols| == k && forall i :: 0 <= i < |x| ==> |x[i]| == k
    requires forall j :: 0 <= j < k ==> cols[j] == PartlyWithin(entity, ToColumns(x, k)[j], Entities(entity, |entity|))
    ensures SameEntries(DesignMat(cols, false), WithinMat(Label(entity), Regressors(x), |x|), |x|, k)
  {
    var n := |x|;
    forall i: nat, j: nat | i < n && j < k
      ensures DesignMat(cols, false)(i, j) == WithinMat(Label(entity), Regressors(x), n)(i, j)
    {
      WithinColumnEntry(entity, x, k, cols[j], i, j);
    }
  }

  lemma WithinColumnEntry(entity: seq<int>, x: seq<seq<real>>, k: nat, col: seq<real>, i: nat, j: nat)
    requires |entity| == |x| && i < |x| && j < k && forall i :: 0 <= i < |x| ==> |x[i]| == k
    requires col == PartlyWithin(entity, ToColumns(x, k)[j], Entities(entity, |entity|))
    ensures |col| == |x| && col[i] == WithinMat(Label(entity), Regressors(x), |x|)(i, j)
  {
    hide Sum, Dot, GroupMean;
    var n, v, u := |x|, AsVec(ToColumns(x, k)[j]), Col(Regressors(x), j);
    assert entity[i] in Entities(entity, |entity|);
    assert v(i) == u(i);
    assert col[i] == Within(Label(entity), v, n)(i);
    GroupMeanCong(Label(entity), v, u, entity[i], n);
    assert WithinMat(Label(entity), Regressors(x), n)(i, j) == Within(Label(entity), u, n)(i);
  }

  lemma WithinResponse(entity: seq<int>, y: seq<real>)
    requires |entity| == |y|
    ensures Agree(AsVec(PartlyWithin(entity, y, Entities(entity, |entity|))), Within(Label(entity), AsVec(y), |y|), |y|)
  {
    hide Sum, Dot, GroupMean;
    forall i | 0 <= i < |y|
      ensures AsVec(PartlyWithin(entity, y, Entities(entity, |entity|)))(i) == Within(Label(entity), AsVec(y), |y|)(i)
    {
      assert entity[i] in Entities(entity, |entity|);
    }
  }

  /** A summary is the least-squares fit of the demeaned response on the demeaned regressors. */
  ghost predicate IsWithinFit(s: PanelSummary, entity: seq<int>, y: seq<real>, x: seq<seq<real>>)
    requires WellFormed(entity, y, x) && |x[0]| < |y|
  {
    var ent, n, k := Label(entity), |y|, |x[0]|;
    && s.nEntities == |Entities(entity, n)|
    && s.nObs == n
    && exists fit: OlsSummary ::
         && IsFit(fit, Within(ent, AsVec(y), n), WithinMat(ent, Regressors(x), n), n, k)
         && s.coefficients == fit.coefficients
         && s.rSquared == fit.rSquared
  }

  ghost predicate FixedEffectsOutcome(entity: seq<int>, y: seq<real>, x: seq<seq<real>>,
                                      r: Result<PanelSummary, EconometricsError>)
  {
    if !WellFormed(entity, y, x) then r == Err(ValidationError(entity, y, x))
    else if |y| <= |x[0]| then r == Err(InsufficientRows(|y|, |x[0]|))
    else if !Independent(WithinMat(Label(entity), Regressors(x), |y|), |y|, |x[0]|) then r == Err(Singular)
    else r.Ok? && IsWithinFit(r.value, entity, y, x)
  }

  /** Demean every column at the given positions. */
  method DemeanAll(cols: seq<array<real>>, indices: seq<nat>, n: nat)
    requires forall j :: 0 <= j < |cols| ==> cols[j].Length == n
    requires forall i, j :: 0 <= i < j < |cols| ==> cols[i] != cols[j]
    requires forall p :: 0 <= p < |indices| ==> indices[p] < n
    modifies set c | c in cols
    ensures forall j :: 0 <= j < |cols| ==> Demeaned(old(cols[j][..]), cols[j][..], indices)
  {
    hide Demeaned;
    for j := 0 to |cols|
      invariant forall i :: 0 <= i < j ==> Demeaned(old(cols[i][..]), cols[i][..], indices)
      invariant forall i :: j <= i < |cols| ==> cols[i][..] == old(cols[i][..])
    {
      DemeanInPlace(cols[j], indices);
    }
  }

  method CopyColumns(columns: seq<seq<real>>, n: nat) returns (cols: seq<array<real>>)
    requires forall j :: 0 <= j < |columns| ==> |columns[j]| == n
    ensures |cols| == |columns| && forall j :: 0 <= j < |cols| ==> fresh(cols[j]) && cols[j][..] == columns[j]
    ensures forall i, j :: 0 <= i < j < |cols| ==> cols[i] != cols[j]
  {
    cols := [];
    for j := 0 to |columns|
      invariant |cols| == j
      invariant forall i :: 0 <= i < j ==> fresh(cols[i]) && cols[i][..] == columns[i]
      invariant forall p, q :: 0 <= p < q < j ==> cols[p] != cols[q]
    {
      var c := new real[n](i requires 0 <= i < n => columns[j][i]);
      assert c[..] == columns[j];
      cols := cols + [c];
    }
  }

  method ReadColumns(cols: seq<array<real>>) returns (columns: seq<seq<real>>)
    ensures |columns| == |cols| && forall j :: 0 <= j < |cols| ==> columns[j] == cols[j][..]
  {
    columns := [];
    for j := 0 to |cols|
      invariant |columns| == j && forall i :: 0 <= i < j ==> columns[i] == cols[i][..]
    {
      columns := columns + [cols[j][..]];
    }
  }

  /** The data after every entity has been demeaned, whatever order the entities come in. */
  method WithinTransformData(entity: seq<int>, y: seq<real>, columns: seq<seq<real>>, groups: map<int, seq<nat>>)
    returns (yWithin: seq<real>, colsWithin: seq<seq<real>>)
    requires |entity| == |y| && forall j :: 0 <= j < |columns| ==> |columns[j]| == |y|
    requires groups == GroupsOf(entity, |entity|)
    ensures yWithin == PartlyWithin(entity, y, Entities(entity, |entity|))
    ensures |colsWithin| == |columns|
    ensures forall j :: 0 <= j < |columns| ==>
      colsWithin[j] == PartlyWithin(entity, columns[j], Entities(entity, |entity|))
  {
    hide Demeaned, Within, IndicesOf;
    var n := |y|;
    var yw := new real[n](i requires 0 <= i < n => y[i]);
    var cols := CopyColumns(columns, n);
    var remaining := groups.Keys;
    ghost var done := {};
    assert yw[..] == PartlyWithin(entity, y, {});
    while remaining != {}
      invariant done + remaining == groups.Keys && done !! remaining
      invariant yw[..] == PartlyWithin(entity, y, done)
      invariant forall j :: 0 <= j < |cols| ==> cols[j][..] == PartlyWithin(entity, columns[j], done)
      decreases remaining
    {
      var e :| e in remaining;
      var indices := groups[e];
      label L:
      DemeanInPlace(yw, indices);
      DemeanStep(entity, y, done, e, old@L(yw[..]), yw[..]);
      DemeanAll(cols, indices, n);
      forall j | 0 <= j < |cols|
        ensures cols[j][..] == PartlyWithin(entity, columns[j], done + {e})
      {
        DemeanStep(entity, columns[j], done, e, old@L(cols[j][..]), cols[j][..]);
      }
      remaining, done := remaining - {e}, done + {e};
    }
    assert done == Entities(entity, |entity|);
    yWithin := yw[..];
    colsWithin := ReadColumns(cols);
  }

  method FixedEffects(entity: seq<int>, y: seq<real>, x: seq<seq<real>>, sqrt: real -> real)
    returns (r: Result<PanelSummary, EconometricsError>)
    requires IsSqrt(sqrt)
    ensures FixedEffectsOutcome(entity, y, x, r)
  {
    hide Sum, Dot, MulVec, IsFit, Independent, Within, PartlyWithin, DesignEntry, WithinMat;
    var checked := Validate(entity, y, x);
    if checked.Err? {
      return Err(checked.error);
    }
    var k, n := checked.value, |y|;
    var columns := ToColumns(x, k);
    var groups := GroupIndices(entity);
    var yWithin, colsWithin := WithinTransformData(entity, y, columns, groups);
    WithinColumns(entity, x, k, colsWithin);
    WithinResponse(entity, y);
    var fit := Regress(yWithin, colsWithin, false, sqrt);
    var d, w := DesignMat(colsWithin, false), WithinMat(Label(entity), Regressors(x), n);
    if Independent(d, n, k) { IndependentCong(d, w, n, k); }
    if Independent(w, n, k) { IndependentCong(w, d, n, k); }
    if fit.Err? {
      return Err(fit.error);
    }
    FitCong(fit.value, AsVec(yWithin), Within(Label(entity), AsVec(y), n), d, w, n, k);
    r := Ok(PanelSummary(fit.value.coefficients, fit.value.rSquared, |groups|, n));
    assert groups.Keys == Entities(entity, n);
    assert |groups| == |groups.Keys|;
  }

  /**
   What fixed effects means: no choice of one intercept per entity and a slope per regressor
   fits the raw panel better than the returned slopes with the intercepts they imply, and
   any choice that fits equally well is that one.
   */
  lemma FixedEffectsIsDummyRegression(entity: seq<int>, y: seq<real>, x: seq<seq<real>>,
                                      r: Result<PanelSummary, EconometricsError>,
                                      alpha: int -> real, b: Vec)
    requires FixedEffectsOutcome(entity, y, x, r) && r.Ok?
    ensures var ent, n, k := Label(entity), |y|, |x[0]|;
      var best := Estimates(r.value.coefficients);
      var fitted := Intercepts(ent, AsVec(y), Regressors(x), best, n, k);
      && PanelRss(ent, AsVec(y), Regressors(x), fitted, best, n, k)
           <= PanelRss(ent, AsVec(y), Regressors(x), alpha, b, n, k)
      && (PanelRss(ent, AsVec(y), Regressors(x), alpha, b, n, k)
            <= PanelRss(ent, AsVec(y), Regressors(x), fitted, best, n, k) ==>
            Agree(best, b, k) && forall i :: 0 <= i < n ==> alpha(ent(i)) == fitted(ent(i)))
  {
    hide Sum, Dot, MulVec, Rss, PanelRss, GroupMean, Independent, NormalEquations;
    var ent, n, k := Label(entity), |y|, |x[0]|;
    var best := Estimates(r.value.coefficients);
    var yv, xm := AsVec(y), Regressors(x);
    WithinIsDummyVariables(ent, yv, xm, best, alpha, b, n, k);
    if PanelRss(ent, yv, xm, alpha, b, n, k)
       <= PanelRss(ent, yv, xm, Intercepts(ent, yv, xm, best, n, k), best, n, k) {
      WithinUnique(ent, yv, xm, best, alpha, b, n, k);
    }
  }

  /**
   The reported R2 is the share of the variation within entities that the slopes explain: what is
   left of it is the residual sum of squares of the raw panel with one intercept per entity.
   */
  lemma FixedEffectsRSquared(entity: seq<int>, y: seq<real>, x: seq<seq<real>>, r: Result<PanelSummary, EconometricsError>)
    requires FixedEffectsOutcome(entity, y, x, r) && r.Ok?
    ensures r.value.nObs == |y| && r.value.nEntities == |set i | 0 <= i < |entity| :: entity[i]|
    ensures var ent, n, k := Label(entity), |y|, |x[0]|;
      var best := Estimates(r.value.coefficients);
      var left := PanelRss(ent, AsVec(y), Regressors(x), Intercepts(ent, AsVec(y), Regressors(x), best, n, k), best, n, k);
      var w := Within(ent, AsVec(y), n);
      if Dot(w, w, n) > 0.0 then r.value.rSquared * Dot(w, w, n) == Dot(w, w, n) - left else r.value.rSquared == 0.0
  {
    hide Sum, Dot, Rss, Tss, PanelRss, Independent, NormalEquations, Intercepts, WithinMat, Within, IsFit;
    var ent, n, k, yv, xm := Label(entity), |y|, |x[0]|, AsVec(y), Regressors(x);
    var w := Within(ent, yv, n);
    var fit: OlsSummary :| IsFit(fit, w, WithinMat(ent, xm, n), n, k) && r.value.coefficients == fit.coefficients && r.value.rSquared == fit.rSquared;
    FitStatistics(fit, w, WithinMat(ent, xm, n), n, k);
    TssNonneg(w, n);
    WithinTotal(ent, yv, n);
    LeftOver(ent, yv, xm, Estimates(r.value.coefficients), n, k);
    assert Entities(entity, n) == set i | 0 <= i < |entity| :: entity[i];
  }

  /** With the intercepts they imply, slopes leave of the raw panel what they leave of the demeaned data. */
  lemma LeftOver(ent: Labels, y: Vec, x: Mat, b: Vec, n: nat, k: nat)
    ensures PanelRss(ent, y, x, Intercepts(ent, y, x, b, n, k), b, n, k) == Rss(Within(ent, y, n), WithinMat(ent, x, n), b, n, k)
  {
    hide Sum, Dot, Rss, PanelRss, Intercepts, WithinMat, Within;
    var zero: Vec := i => 0.0;
    PanelDecomposition(ent, y, x, Intercepts(ent, y, x, b, n, k), b, n, k, zero);
    DotZero(zero, zero, n);
  }

  /** Demeaned series sum to zero, so their total variation is their sum of squares. */
  lemma WithinTotal(ent: Labels, v: Vec, n: nat)
    requires n > 0
    ensures Tss(Within(ent, v, n), n) == Dot(Within(ent, v, n), Within(ent, v, n), n)
  {
    hide Sum, Dot, GroupMean, Tss;
    var w, one: int -> real := Within(ent, v, n), e => 1.0;
    WithinOrthogonal(ent, v, one, n);
    DotCong(w, w, PerGroup(ent, one), Ones(), n);
    SumsAgainstOnes(w, n);
    TotalIs(w, n);
    Cancel(Tss(w, n), Dot(w, w, n), n as real);
  }

  /** Which panels are refused and how, in the order of the checks. */
  lemma FixedEffectsRefuses(entity: seq<int>, y: seq<real>, x: seq<seq<real>>, r: Result<PanelSummary, EconometricsError>)
    requires FixedEffectsOutcome(entity, y, x, r)
    ensures |y| == 0 || |entity| != |y| || |x| != |y| ==> r == Err(RowMismatch(|y|, if |x| > |entity| then |x| else |entity|))
    ensures |y| > 0 && |entity| == |x| == |y| && (|x[0]| == 0 || exists i :: 0 <= i < |x| && |x[i]| != |x[0]|) ==> r == Err(EmptyDesign)
    ensures |y| > 0 && |entity| == |x| == |y| && |x[0]| > 0 && (forall i :: 0 <= i < |x| ==> |x[i]| == |x[0]|) && |y| <= |x[0]| ==>
      r == Err(InsufficientRows(|y|, |x[0]|))
  {
    hide Independent, IsWithinFit;
  }
}
