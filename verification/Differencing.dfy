/**
 Repeated differencing of a series and its inverse
 (`difference` and `integrate`, crates/tdw-analytics-forecast/src/arima.rs).
 */
module Differencing {
  /** First differences; a series of fewer than two entries has none. */
  function Diff(s: seq<real>): seq<real> {
    if |s| < 2 then [] else seq(|s| - 1, i requires 0 <= i < |s| - 1 => s[i + 1] - s[i])
  }

  function DiffN(s: seq<real>, d: nat): seq<real>
    decreases d
  {
    if d == 0 then s else DiffN(Diff(s), d - 1)
  }

  function LastOrZero(s: seq<real>): real { if s == [] then 0.0 else s[|s| - 1] }

  /** The last value of each successive difference, outermost first. */
  function Anchors(s: seq<real>, d: nat): (r: seq<real>)
    ensures |r| == d
    decreases d
  {
    if d == 0 then [] else [LastOrZero(s)] + Anchors(Diff(s), d - 1)
  }

  /** Anchor k is the last value of the k-th difference, zero when that is empty. */
  lemma {:induction false} AnchorsAre(s: seq<real>, d: nat, k: nat)
    requires k < d
    ensures var w := DiffN(s, k); Anchors(s, d)[k] == if |w| > 0 then w[|w| - 1] else 0.0
    decreases d
  {
    if k > 0 {
      AnchorsAre(Diff(s), d - 1, k - 1);
    }
  }

  /** Running totals starting from a. */
  function Cumulate(a: real, s: seq<real>): (r: seq<real>)
    ensures |r| == |s|
    decreases s
  {
    if s == [] then [] else [a + s[0]] + Cumulate(a + s[0], s[1..])
  }

  function Integral(fc: seq<real>, anchors: seq<real>): (r: seq<real>)
    ensures |r| == |fc|
  {
    if anchors == [] then fc else Cumulate(anchors[0], Integral(fc, anchors[1..]))
  }

  /** What s adds to a step by step: the differences of [a] + s. */
  function Increments(a: real, s: seq<real>): (r: seq<real>)
    ensures |r| == |s|
    decreases s
  {
    if s == [] then [] else [s[0] - a] + Increments(s[0], s[1..])
  }

  // ---------- the loops ----------

  method Difference(y: seq<real>, d: nat) returns (current: seq<real>, anchors: seq<real>)
    ensures current == DiffN(y, d) && anchors == Anchors(y, d)
  {
    current, anchors := y, [];
    for k := 0 to d
      invariant DiffN(current, d - k) == DiffN(y, d)
      invariant anchors + Anchors(current, d - k) == Anchors(y, d)
    {
      anchors := anchors + [LastOrZero(current)];
      var next := Windows(current);
      current := next;
    }
  }

  /** The inner loop of `difference`, over consecutive pairs. */
  method Windows(current: seq<real>) returns (next: seq<real>)
    ensures next == Diff(current)
  {
    next := [];
    if |current| > 0 {
      for i := 1 to |current|
        invariant next == Diff(current[..i])
      {
        DiffAppend(current[..i], current[i]);
        assert current[..i + 1] == current[..i] + [current[i]];
        next := next + [current[i] - current[i - 1]];
      }
      assert current[..|current|] == current;
    }
  }

  method Integrate(diffFc: seq<real>, anchors: seq<real>) returns (current: seq<real>)
    ensures current == Integral(diffFc, anchors)
  {
    current := diffFc;
    assert anchors[|anchors|..] == [];
    for k := |anchors| downto 0
      invariant current == Integral(diffFc, anchors[k..])
    {
      var running := anchors[k];
      var out := [];
      for i := 0 to |current|
        invariant out + Cumulate(running, current[i..]) == Cumulate(anchors[k], current)
      {
        running := running + current[i];
        out := out + [running];
        assert current[i..][1..] == current[i + 1..];
      }
      assert anchors[k..][1..] == anchors[k + 1..];
      current := out;
    }
  }

  lemma DiffAppend(s: seq<real>, x: real)
    requires s != []
    ensures Diff(s + [x]) == Diff(s) + [x - s[|s| - 1]]
  {
    var t, d, last := s + [x], Diff(s), |s| - 1;
    assert |Diff(t)| == |s| && |d| == last;
    forall i: nat | i < last
      ensures Diff(t)[i] == d[i]
    {
      assert t[i] == s[i] && t[i + 1] == s[i + 1];
    }
    assert Diff(t)[last] == x - s[last];
  }

  // ---------- one level ----------

  lemma Reassociate(a: seq<real>, b: seq<real>, c: seq<real>)
    ensures (a + b) + c == a + (b + c)
  {
  }

  lemma MoveHead(s: seq<real>, t: seq<real>)
    requires t != []
    ensures (s + [t[0]]) + t[1..] == s + t
  {
  }

  lemma IncrementsHead(a: real, t: seq<real>)
    requires t != []
    ensures Increments(a, t) == [t[0] - a] + Increments(t[0], t[1..])
  {
  }

  lemma {:induction false} DiffConcat(s: seq<real>, t: seq<real>)
    requires s != []
    ensures Diff(s + t) == Diff(s) + Increments(s[|s| - 1], t)
    decreases t
  {
    hide Diff;
    if t == [] {
      assert s + t == s;
    } else {
      hide Increments;
      var s', x := s + [t[0]], t[0] - s[|s| - 1];
      DiffAppend(s, t[0]);
      DiffConcat(s', t[1..]);
      MoveHead(s, t);
      IncrementsHead(s[|s| - 1], t);
      Reassociate(Diff(s), [x], Increments(t[0], t[1..]));
    }
  }

  lemma {:induction false} CumulateIncrements(a: real, s: seq<real>)
    ensures Cumulate(a, Increments(a, s)) == s
    decreases s
  {
    if s != [] { CumulateIncrements(s[0], s[1..]); }
  }

  lemma {:induction false} IncrementsCumulate(a: real, s: seq<real>)
    ensures Increments(a, Cumulate(a, s)) == s
    decreases s
  {
    if s != [] {
      IncrementsCumulate(a + s[0], s[1..]);
      assert Cumulate(a, s)[1..] == Cumulate(a + s[0], s[1..]);
    }
  }

  lemma {:induction false} DiffLength(s: seq<real>, d: nat)
    ensures |DiffN(s, d)| == if |s| <= d then 0 else |s| - d
    decreases d
  {
    if d > 0 { DiffLength(Diff(s), d - 1); }
  }

  // ---------- round trips ----------

  /**
   Integrating from the anchors of a history of at least d entries, then differencing d
   times, gives back the forecast after the history's own d-th difference.
   */
  lemma {:induction false} DifferenceOfIntegral(hist: seq<real>, fc: seq<real>, d: nat)
    requires |hist| >= d
    ensures DiffN(hist + Integral(fc, Anchors(hist, d)), d) == DiffN(hist, d) + fc
    decreases d
  {
    if d > 0 {
      var a, rest := hist[|hist| - 1], Anchors(Diff(hist), d - 1);
      assert Anchors(hist, d)[1..] == rest;
      var inner := Integral(fc, rest);
      DiffConcat(hist, Cumulate(a, inner));
      IncrementsCumulate(a, inner);
      DifferenceOfIntegral(Diff(hist), fc, d - 1);
    }
  }

  /** Integrating the true future differences from the history's anchors gives the true future. */
  lemma {:induction false} IntegralOfDifference(hist: seq<real>, future: seq<real>, d: nat)
    requires |hist| >= d
    ensures DiffN(hist + future, d) == DiffN(hist, d) + FutureDifferences(hist, future, d)
    ensures Integral(FutureDifferences(hist, future, d), Anchors(hist, d)) == future
    decreases d
  {
    hide Diff;
    if d > 0 {
      var a := hist[|hist| - 1];
      DiffConcat(hist, future);
      DiffLength(hist, 1);
      IntegralOfDifference(Diff(hist), Increments(a, future), d - 1);
      CumulateIncrements(a, future);
    }
  }

  /** The part of the d-th difference of history and future that the future contributes. */
  function FutureDifferences(hist: seq<real>, future: seq<real>, d: nat): (r: seq<real>)
    ensures |r| == |future|
    decreases d
  {
    if d == 0 then future
    else FutureDifferences(Diff(hist), Increments(LastOrZero(hist), future), d - 1)
  }

  /**
   The same, read off the differenced series as its last |future| entries, which is how the
   program's round-trip test obtains them.
   */
  lemma IntegralOfLastDifferences(hist: seq<real>, future: seq<real>, d: nat)
    requires |hist| >= d
    ensures |DiffN(hist + future, d)| == |hist| - d + |future|
    ensures Integral(DiffN(hist + future, d)[|hist| - d..], Anchors(hist, d)) == future
  {
    DiffLength(hist, d);
    IntegralOfDifference(hist, future, d);
    var w, g := DiffN(hist, d), FutureDifferences(hist, future, d);
    assert (w + g)[|w|..] == g;
  }

  /** The round trip needs the d entries of history, unless there is nothing to integrate. */
  lemma RoundTripIff(hist: seq<real>, fc: seq<real>, d: nat)
    ensures DiffN(hist + Integral(fc, Anchors(hist, d)), d) == DiffN(hist, d) + fc <==> |hist| >= d || fc == []
  {
    if |hist| >= d {
      DifferenceOfIntegral(hist, fc, d);
    } else if fc == [] {
      assert hist + Integral(fc, Anchors(hist, d)) == hist;
    } else {
      DiffLength(hist + Integral(fc, Anchors(hist, d)), d);
      DiffLength(hist, d);
    }
  }
}
