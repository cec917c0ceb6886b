/** Piecewise-constant paths: looking a state up, and measuring how long it held. */
module Trajectories {
  /** `times[i]` is when `states[i]` was entered. */
  datatype Trajectory<S> = Trajectory(times: seq<real>, states: seq<S>) {
    /** What the constructor accepts, plus the ordering every simulator produces and bisection needs. */
    ghost predicate Valid() {
      && |times| == |states|
      && |times| > 0
      && times[0] == 0.0
      && StrictlyIncreasing(times)
    }
  }

  ghost predicate StrictlyIncreasing(xs: seq<real>) {
    forall i, j :: 0 <= i < j < |xs| ==> xs[i] < xs[j]
  }

  function Min(a: real, b: real): real {
    if a <= b then a else b
  }

  /** The insertion point to the right of `x`, found by halving `[lo, hi)`. */
  function BisectRight(xs: seq<real>, x: real, lo: nat, hi: nat): (k: nat)
    requires lo <= hi <= |xs|
    requires StrictlyIncreasing(xs)
    requires forall i :: 0 <= i < lo ==> xs[i] <= x
    requires forall i :: hi <= i < |xs| ==> x < xs[i]
    ensures k <= |xs|
    ensures forall i :: 0 <= i < k ==> xs[i] <= x
    ensures forall i :: k <= i < |xs| ==> x < xs[i]
    decreases hi - lo
  {
    if lo == hi then lo
    else
      var mid := (lo + hi) / 2;
      if x < xs[mid] then BisectRight(xs, x, lo, mid) else BisectRight(xs, x, mid + 1, hi)
  }

  function At<S>(path: Trajectory<S>, t: real): S
    requires path.Valid()
  {
    if t <= 0.0 then path.states[0]
    else path.states[BisectRight(path.times, t, 0, |path.times|) - 1]
  }

  /** The path has entered its `i`-th state by `t` and not left it. */
  ghost predicate During<S>(path: Trajectory<S>, t: real, i: nat)
    requires path.Valid()
  {
    && i < |path.times|
    && (i == 0 || path.times[i] <= t) && (i + 1 < |path.times| ==> t < path.times[i + 1])
  }

  ghost predicate Holds<S(!new)>(path: Trajectory<S>, t: real, state: S)
    requires path.Valid()
  {
    exists i: nat :: During(path, t, i) && path.states[i] == state
  }

  lemma CurrentStretch<S>(path: Trajectory<S>, t: real) returns (k: nat)
    requires path.Valid() && t >= 0.0
    ensures During(path, t, k) && At(path, t) == path.states[k]
  {
    k := if t <= 0.0 then 0 else BisectRight(path.times, t, 0, |path.times|) - 1;
  }

  lemma OneStretch<S>(path: Trajectory<S>, t: real, i: nat, k: nat)
    requires path.Valid() && t >= 0.0 && During(path, t, i) && During(path, t, k)
    ensures i == k
  {
    assert path.times[i] <= t && path.times[k] <= t;
  }

  /** The lookup says which state holds. */
  lemma HoldsIff<S(!new)>(path: Trajectory<S>, t: real, state: S)
    requires path.Valid() && t >= 0.0
    ensures Holds(path, t, state) <==> At(path, t) == state
  {
    hide At;
    var k := CurrentStretch(path, t);
    if i: nat :| During(path, t, i) && path.states[i] == state {
      OneStretch(path, t, i, k);
    }
  }

  /** The reference lookup: walk forward while the next stretch has already started. */
  function ScanFrom<S>(path: Trajectory<S>, t: real, i: nat): S
    requires path.Valid() && i < |path.times|
    decreases |path.times| - i
  {
    if i + 1 < |path.times| && path.times[i + 1] <= t then ScanFrom(path, t, i + 1) else path.states[i]
  }

  lemma {:induction false} ScanFinds<S>(path: Trajectory<S>, t: real, i: nat, k: nat)
    requires path.Valid() && i <= k < |path.times|
    requires forall j :: 1 <= j <= k ==> path.times[j] <= t
    requires k + 1 < |path.times| ==> t < path.times[k + 1]
    ensures ScanFrom(path, t, i) == path.states[k]
    decreases k - i
  {
    if i < k {
      ScanFinds(path, t, i + 1, k);
    }
  }

  /** Bisection and the linear scan give the same state at every time, before zero and past the end included. */
  lemma AtAgreesWithScan<S>(path: Trajectory<S>, t: real)
    requires path.Valid()
    ensures At(path, t) == ScanFrom(path, t, 0)
  {
    var k := if t <= 0.0 then 0 else BisectRight(path.times, t, 0, |path.times|) - 1;
    ScanFinds(path, t, 0, k);
  }

  // ---- time spent in a state ---------------------------------------------

  function End<S>(path: Trajectory<S>, i: nat, horizon: real): real
    requires path.Valid() && i < |path.times|
  {
    if i + 1 < |path.times| then path.times[i + 1] else horizon
  }

  /** How much of stretch `i` lies below the horizon. */
  function Stretch<S>(path: Trajectory<S>, i: nat, horizon: real): real
    requires path.Valid() && i < |path.times|
  {
    Min(End(path, i, horizon), horizon) - Min(path.times[i], horizon)
  }

  /** Time spent in `state` over the first `n` stretches. */
  function TimeInFirst<S(==)>(path: Trajectory<S>, state: S, horizon: real, n: nat): real
    requires path.Valid() && n <= |path.times|
  {
    if n == 0 then 0.0
    else
      var before := TimeInFirst(path, state, horizon, n - 1);
      if path.states[n - 1] == state then before + Stretch(path, n - 1, horizon) else before
  }

  function TimeInState<S(==)>(path: Trajectory<S>, state: S, horizon: real): real
    requires path.Valid()
  {
    TimeInFirst(path, state, horizon, |path.times|)
  }

  method TimeIn<S(==)>(path: Trajectory<S>, state: S, horizon: real) returns (total: real)
    requires path.Valid()
    ensures total == TimeInState(path, state, horizon)
  {
    total := 0.0;
    for index := 0 to |path.times|
      invariant total == TimeInFirst(path, state, horizon, index)
    {
      var end := if index + 1 < |path.times| then path.times[index + 1] else horizon;
      if path.states[index] == state {
        total := total + Min(end, horizon) - Min(path.times[index], horizon);
      }
    }
  }

  ghost predicate AlwaysIn<S>(path: Trajectory<S>, state: S, a: real, b: real)
    requires path.Valid()
  {
    forall t :: a <= t < b ==> At(path, t) == state
  }

  ghost predicate NeverIn<S>(path: Trajectory<S>, state: S, a: real, b: real)
    requires path.Valid()
  {
    forall t :: a <= t < b ==> At(path, t) != state
  }

  /** `f(h)` is the length of `{ t in [0, h) | At(path, t) == state }`: it starts at zero, grows at unit
      speed wherever the lookup returns `state`, and stands still wherever it does not. */
  ghost predicate MeasuresTimeIn<S(!new)>(path: Trajectory<S>, state: S, f: real -> real)
    requires path.Valid()
  {
    && f(0.0) == 0.0
    && (forall a, b :: 0.0 <= a <= b && AlwaysIn(path, state, a, b) ==> f(b) - f(a) == b - a)
    && (forall a, b :: 0.0 <= a <= b && NeverIn(path, state, a, b) ==> f(b) == f(a))
  }

  lemma AtInsideStretch<S>(path: Trajectory<S>, i: nat, t: real)
    requires path.Valid() && i < |path.times|
    requires path.times[i] <= t && (i + 1 < |path.times| ==> t < path.times[i + 1])
    ensures At(path, t) == path.states[i]
  {
    AtAgreesWithScan(path, t);
    ScanFinds(path, t, 0, i);
  }

  /** What stretch `i` gains between two horizons. */
  lemma StretchGrows<S>(path: Trajectory<S>, i: nat, a: real, b: real)
    requires path.Valid() && i < |path.times| && 0.0 <= a <= b
    ensures Stretch(path, i, a) <= Stretch(path, i, b)
    ensures Stretch(path, i, a) < Stretch(path, i, b) ==>
              exists t :: a <= t < b && At(path, t) == path.states[i]
  {
    if Stretch(path, i, a) < Stretch(path, i, b) {
      var t := if path.times[i] <= a then a else path.times[i];
      AtInsideStretch(path, i, t);
    }
  }

  /** The gain over `[a, b]`, stretch by stretch, when the path never leaves or never enters the state. */
  lemma {:induction false} GainOver<S>(path: Trajectory<S>, state: S, a: real, b: real, n: nat)
    requires path.Valid() && 0.0 <= a <= b && n <= |path.times|
    ensures NeverIn(path, state, a, b) ==> TimeInFirst(path, state, b, n) == TimeInFirst(path, state, a, n)
    ensures AlwaysIn(path, state, a, b) && n > 0 ==>
              TimeInFirst(path, state, b, n) - TimeInFirst(path, state, a, n)
              == Min(End(path, n - 1, b), b) - Min(End(path, n - 1, a), a)
  {
    if n > 0 {
      GainOver(path, state, a, b, n - 1);
      StretchGrows(path, n - 1, a, b);
    }
  }

  /** `time_in` measures exactly the times at which `at` returns the state. */
  lemma TimeInMeasures<S(!new)>(path: Trajectory<S>, state: S)
    requires path.Valid()
    ensures MeasuresTimeIn(path, state, h => TimeInState(path, state, h))
  {
    var n := |path.times|;
    var f := h => TimeInState(path, state, h);
    GainOver(path, state, 0.0, 0.0, n);
    NothingBeforeZero(path, state, n);
    forall a, b | 0.0 <= a <= b && AlwaysIn(path, state, a, b) ensures f(b) - f(a) == b - a {
      GainOver(path, state, a, b, n);
    }
    forall a, b | 0.0 <= a <= b && NeverIn(path, state, a, b) ensures f(b) == f(a) {
      GainOver(path, state, a, b, n);
    }
  }

  lemma {:induction false} NothingBeforeZero<S>(path: Trajectory<S>, state: S, n: nat)
    requires path.Valid() && n <= |path.times|
    ensures TimeInFirst(path, state, 0.0, n) == 0.0
  {
    if n > 0 {
      NothingBeforeZero(path, state, n - 1);
    }
  }

  /** That measure is unique, so `time_in` is it and nothing else. */
  lemma TimeInIsTheOnlyMeasure<S(!new)>(path: Trajectory<S>, state: S, f: real -> real, h: real)
    requires path.Valid() && 0.0 <= h
    requires MeasuresTimeIn(path, state, f)
    ensures f(h) == TimeInState(path, state, h)
  {
    var g := h => TimeInState(path, state, h);
    TimeInMeasures(path, state);
    var k := if h <= 0.0 then 0 else BisectRight(path.times, h, 0, |path.times|) - 1;
    MeasuresAgree(path, state, f, g, k, h);
  }

  lemma {:induction false} MeasuresAgree<S(!new)>(path: Trajectory<S>, state: S, f: real -> real, g: real -> real,
                                                  k: nat, h: real)
    requires path.Valid() && k < |path.times|
    requires path.times[k] <= h && (k + 1 < |path.times| ==> h <= path.times[k + 1])
    requires MeasuresTimeIn(path, state, f) && MeasuresTimeIn(path, state, g)
    ensures f(h) == g(h)
  {
    var start := path.times[k];
    if k > 0 {
      MeasuresAgree(path, state, f, g, k - 1, start);
    }
    forall t | start <= t < h ensures At(path, t) == path.states[k] {
      AtInsideStretch(path, k, t);
    }
    if path.states[k] == state {
      assert AlwaysIn(path, state, start, h);
    } else {
      assert NeverIn(path, state, start, h);
    }
  }

  // ---- conservation --------------------------------------------------------

  function TotalOver<S(==)>(path: Trajectory<S>, states: seq<S>, horizon: real, n: nat): real
    requires path.Valid() && n <= |path.times|
  {
    if states == [] then 0.0
    else TimeInFirst(path, states[0], horizon, n) + TotalOver(path, states[1..], horizon, n)
  }

  ghost predicate Distinct<S>(xs: seq<S>) {
    forall i, j :: 0 <= i < j < |xs| ==> xs[i] != xs[j]
  }

  lemma {:induction false} TotalGainsOneStretch<S>(path: Trajectory<S>, states: seq<S>, h: real, n: nat)
    requires path.Valid() && 0 < n <= |path.times| && Distinct(states)
    ensures TotalOver(path, states, h, n) - TotalOver(path, states, h, n - 1)
         == if path.states[n - 1] in states then Stretch(path, n - 1, h) else 0.0
  {
    if states != [] {
      TotalGainsOneStretch(path, states[1..], h, n);
      if path.states[n - 1] == states[0] {
        assert path.states[n - 1] !in states[1..];
      }
    }
  }

  lemma {:induction false} TotalIsElapsed<S>(path: Trajectory<S>, states: seq<S>, h: real, n: nat)
    requires path.Valid() && n <= |path.times| && 0.0 <= h
    requires Distinct(states) && forall s :: s in path.states ==> s in states
    ensures TotalOver(path, states, h, n) == if n == 0 then 0.0 else Min(End(path, n - 1, h), h)
  {
    if n == 0 {
      TotalOfNothing(path, states, h);
    } else {
      TotalIsElapsed(path, states, h, n - 1);
      TotalGainsOneStretch(path, states, h, n);
    }
  }

  lemma {:induction false} TotalOfNothing<S>(path: Trajectory<S>, states: seq<S>, h: real)
    requires path.Valid()
    ensures TotalOver(path, states, h, 0) == 0.0
  {
    if states != [] {
      TotalOfNothing(path, states[1..], h);
    }
  }

  /** No time is lost or counted twice: over any list of distinct states that covers the path, the
      times in each add up to the horizon. */
  lemma TimeIsConserved<S>(path: Trajectory<S>, states: seq<S>, h: real)
    requires path.Valid() && 0.0 <= h
    requires Distinct(states) && forall s :: s in path.states ==> s in states
    ensures TotalOver(path, states, h, |path.times|) == h
  {
    TotalIsElapsed(path, states, h, |path.times|);
  }
}
