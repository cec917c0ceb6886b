/** Off-policy estimators over logged episodes. Arithmetic is exact. */
module Estimators {
  import opened Common
  import opened Sums
  import opened EffectiveSampleSize

  datatype EvaluatedAction = RetryImmediate | RetryScheduled | SwitchRail | CustomerNudge | NoAction {
    function Value(): string {
      match this
      case RetryImmediate => "RETRY_IMMEDIATE"
      case RetryScheduled => "RETRY_SCHEDULED"
      case SwitchRail => "SWITCH_RAIL"
      case CustomerNudge => "CUSTOMER_NUDGE"
      case NoAction => "NO_ACTION"
    }
  }

  datatype LoggedEpisode = LoggedEpisode(taxonomy: Option<string>, action: EvaluatedAction, propensity: real,
                                         rewardPaise: int) {
    function TaxonomyCode(): string {
      if taxonomy.Some? then taxonomy.value else "UNKNOWN"
    }
  }

  /** A dictionary, in insertion order. */
  type Dict<K, V> = seq<(K, V)>

  /** Where a key is, or the length when it is absent. */
  function Find<K(==), V>(dict: Dict<K, V>, key: K): (at: nat)
    ensures at <= |dict| && (at < |dict| ==> dict[at].0 == key)
    ensures forall i :: 0 <= i < at ==> dict[i].0 != key
  {
    if dict == [] then 0
    else if dict[0].0 == key then 0
    else
      var later := Find(dict[1..], key);
      assert forall i :: 0 < i < later + 1 ==> dict[i] == dict[1..][i - 1];
      later + 1
  }

  ghost predicate UniqueKeys<K, V>(dict: Dict<K, V>) {
    forall i, j :: 0 <= i < j < |dict| ==> dict[i].0 != dict[j].0
  }

  type Policy = Dict<EvaluatedAction, real>

  function Probability(policy: Policy, action: EvaluatedAction): real {
    var at := Find(policy, action);
    if at < |policy| then policy[at].1 else 0.0
  }

  // ---- importance weights -----------------------------------------------------------

  function Clipped(w: real, cap: Option<real>): real {
    if cap.Some? && cap.value < w then cap.value else w
  }

  /** The target policy wants what the logging policy could never have done. */
  predicate Unsupported(e: LoggedEpisode, policy: Policy) {
    Probability(policy, e.action) > 0.0 && e.propensity <= 0.0
  }

  function Weight(e: LoggedEpisode, policy: Policy, cap: Option<real>): real {
    var target := Probability(policy, e.action);
    if target > 0.0 && e.propensity > 0.0 then Clipped(target / e.propensity, cap) else 0.0
  }

  function Weights(episodes: seq<LoggedEpisode>, policies: seq<Policy>, cap: Option<real>): (ws: seq<real>)
    requires |policies| >= |episodes|
    ensures |ws| == |episodes|
  {
    seq(|episodes|, i requires 0 <= i < |episodes| => Weight(episodes[i], policies[i], cap))
  }

  function Rewards(episodes: seq<LoggedEpisode>): (rs: seq<real>)
    ensures |rs| == |episodes|
  {
    seq(|episodes|, i requires 0 <= i < |episodes| => episodes[i].rewardPaise as real)
  }

  ghost predicate Identifiable(episodes: seq<LoggedEpisode>, policies: seq<Policy>)
    requires |policies| >= |episodes|
  {
    forall i :: 0 <= i < |episodes| ==> !Unsupported(episodes[i], policies[i])
  }

  /** A weight is positive exactly where both policies may act, as long as the cap does not wipe it out. */
  lemma WeightIsPositiveIff(e: LoggedEpisode, policy: Policy, cap: Option<real>)
    requires cap.Some? ==> cap.value > 0.0
    ensures Weight(e, policy, cap) >= 0.0
    ensures Weight(e, policy, cap) > 0.0 <==> Shared(e, policy)
    ensures cap.Some? ==> Weight(e, policy, cap) <= cap.value
  {
    var target := Probability(policy, e.action);
    if target > 0.0 && e.propensity > 0.0 {
      assert target / e.propensity > 0.0;
    }
  }

  /** The branch every estimator takes on each episode. */
  method Weigh(e: LoggedEpisode, policy: Policy, cap: Option<real>) returns (w: real, supported: bool)
    ensures w == Weight(e, policy, cap)
    ensures supported <==> !Unsupported(e, policy)
  {
    var target, logged := Probability(policy, e.action), e.propensity;
    w, supported := 0.0, true;
    if target > 0.0 && logged <= 0.0 {
      supported := false;
    } else if target > 0.0 {
      w := target / logged;
      if cap.Some? {
        w := if cap.value < w then cap.value else w;
      }
    }
  }

  // ---- standard errors -----------------------------------------------------------------

  /** The square of the standard error of a mean. A single value has none. */
  function SquaredError(xs: seq<real>): Option<real> {
    if |xs| < 2 then None
    else Some(SpreadOf(xs) / (|xs| - 1) as real / |xs| as real)
  }

  /** The squared distances from the mean. */
  function SpreadOf(xs: seq<real>): real
    requires xs != []
  {
    SumOfSquares(Less(xs, Constant(|xs|, Mean(xs))))
  }

  /** It is the spread of the values about their mean: never negative, and nothing exactly when they are all equal. */
  lemma SquaredErrorIs(xs: seq<real>)
    ensures SquaredError(xs).None? <==> |xs| < 2
    ensures |xs| >= 2 ==>
              && SquaredError(xs).value >= 0.0
              && (SquaredError(xs).value == 0.0 <==> AllEqual(xs))
              && Mul(|xs| as real, Mul(|xs| as real, Mul((|xs| - 1) as real, SquaredError(xs).value))) ==
                 Mul(|xs| as real, SumOfSquares(xs)) - Square(Sum(xs))
  {
    hide SumOfSquares, AllEqual, Sum, Mul, Square, SpreadOf;
    if |xs| >= 2 {
      var spread, n := SpreadOf(xs), |xs| as real;
      SpreadIs(xs);
      DividedTwice(spread, n - 1.0, n);
      assert SquaredError(xs) == Some(spread / (n - 1.0) / n);
      hide SquaredError;
    }
  }

  lemma SpreadIs(xs: seq<real>)
    requires xs != []
    ensures SpreadOf(xs) >= 0.0
    ensures SpreadOf(xs) == 0.0 <==> AllEqual(xs)
    ensures Mul(|xs| as real, SpreadOf(xs)) == Mul(|xs| as real, SumOfSquares(xs)) - Square(Sum(xs))
  {
    hide SumOfSquares, Less, AllEqual, Mean, Sum, Mul, Square, Expanded;
    NoSpreadIffEqual(xs);
    SquaresAreNonNegative(Less(xs, Constant(|xs|, Mean(xs))));
    Spread(xs, Mean(xs));
    MeanTimesCount(xs);
    SpreadAboutMean(SumOfSquares(xs), Sum(xs), |xs| as real, Mean(xs));
  }

  lemma SpreadAboutMean(q: real, s: real, n: real, m: real)
    requires m * n == s
    ensures Mul(n, Expanded(q, s, n, m)) == Mul(n, q) - Square(s)
  {
    assert n * m * m == s * m;
    assert 2.0 * m * s == 2.0 * (s * m);
    assert Expanded(q, s, n, m) == q - s * m;
    assert n * (q - s * m) == n * q - n * (s * m);
    assert n * (s * m) == s * s;
  }

  lemma DividedTwice(x: real, k: real, n: real)
    requires k > 0.0 && n > 0.0
    ensures Mul(n, Mul(k, x / k / n)) == x
    ensures x >= 0.0 ==> x / k / n >= 0.0
    ensures x / k / n == 0.0 <==> x == 0.0
  {
    var y := x / k;
    var z := y / n;
    assert y * k == x && z * n == y;
    assert Mul(n, Mul(k, z)) == z * n * k;
  }

  method EstimateIps(episodes: seq<LoggedEpisode>, policies: seq<Policy>, cap: Option<real>)
    returns (point: real, error: Option<real>, ess: real, identifiable: bool)
    requires |policies| >= |episodes|
    ensures episodes == [] ==> point == 0.0 && error == Some(0.0) && ess == 0.0
    ensures episodes != [] ==>
              && point == Mean(Times(Weights(episodes, policies, cap), Rewards(episodes)))
              && error == SquaredError(Times(Weights(episodes, policies, cap), Rewards(episodes)))
              && ess == Kish(Weights(episodes, policies, cap))
    ensures identifiable <==> Identifiable(episodes, policies)
  {
    hide Kish, Mean, Weight, Unsupported, Times, SquaredError;
    var n := |episodes|;
    if n == 0 {
      return 0.0, Some(0.0), 0.0, true;
    }
    var weights, weighted := new real[n](_ => 0.0), new real[n](_ => 0.0);
    ghost var ws, rs := Weights(episodes, policies, cap), Rewards(episodes);
    identifiable := true;
    for i := 0 to n
      invariant weights[..i] == ws[..i] && weighted[..i] == Times(ws, rs)[..i]
      invariant identifiable <==> forall k :: 0 <= k < i ==> !Unsupported(episodes[k], policies[k])
    {
      var w, supported := Weigh(episodes[i], policies[i], cap);
      identifiable := identifiable && supported;
      var r := episodes[i].rewardPaise as real;
      weights[i] := w;
      weighted[i] := w * r;
      NextProduct(ws, rs, i, w, r);
      assert weighted[..i + 1] == weighted[..i] + [w * r];
    }
    WholePrefix(weights[..], ws);
    WholePrefix(weighted[..], Times(ws, rs));
    point := Mean(weighted[..]);
    error := SquaredError(weighted[..]);
    ess := Kish(weights[..]);
  }

  lemma NextProduct(xs: seq<real>, ys: seq<real>, i: nat, x: real, y: real)
    requires i < |xs| == |ys| && x == xs[i] && y == ys[i]
    ensures Times(xs, ys)[i] == x * y
    ensures Times(xs, ys)[..i + 1] == Times(xs, ys)[..i] + [x * y]
  {
  }

  lemma WholePrefix(xs: seq<real>, ys: seq<real>)
    requires |xs| == |ys| && xs[..|xs|] == ys[..|xs|]
    ensures xs == ys
  {
    assert xs[..|xs|] == xs && ys[..|xs|] == ys;
  }

  /** The self-normalised mean: zero when nothing carries weight. */
  function SelfNormalised(weights: seq<real>, rewards: seq<real>): real
    requires |weights| == |rewards|
  {
    Ratio(Sum(Times(weights, rewards)), Sum(weights))
  }

  /** How much each episode pulls the self-normalised mean, to first order. */
  function Linearized(weights: seq<real>, rewards: seq<real>): (ls: seq<real>)
    requires |weights| == |rewards| && Sum(weights) > 0.0
    ensures |ls| == |weights|
  {
    PositiveAverage(weights);
    Pulls(weights, rewards, Sum(weights) / |weights| as real, SelfNormalised(weights, rewards))
  }

  lemma PositiveAverage(weights: seq<real>)
    requires Sum(weights) > 0.0
    ensures |weights| > 0 && Sum(weights) / |weights| as real > 0.0
  {
  }

  /** The pulls cancel, so their spread is the mean of their squares. */
  lemma LinearizedCancels(weights: seq<real>, rewards: seq<real>)
    requires |weights| == |rewards| && Sum(weights) > 0.0
    ensures Sum(Linearized(weights, rewards)) == 0.0
  {
    hide Sum, Times, SelfNormalised;
    PositiveAverage(weights);
    var average, point := Sum(weights) / |weights| as real, SelfNormalised(weights, rewards);
    LinearizedSum(weights, rewards, average, point);
    NothingPulls(weights, rewards);
    NoProduct(average, Sum(Pulls(weights, rewards, average, point)));
  }

  function Pull(weight: real, reward: real, average: real, point: real): real
    requires average > 0.0
  {
    weight / average * (reward - point)
  }

  function Pulls(weights: seq<real>, rewards: seq<real>, average: real, point: real): (ls: seq<real>)
    requires |weights| == |rewards| && average > 0.0
    ensures |ls| == |weights|
  {
    seq(|weights|, i requires 0 <= i < |weights| => Pull(weights[i], rewards[i], average, point))
  }

  lemma {:induction false} LinearizedSum(weights: seq<real>, rewards: seq<real>, average: real, point: real)
    requires |weights| == |rewards| && average > 0.0
    ensures Mul(average, Sum(Pulls(weights, rewards, average, point))) ==
            Sum(Times(weights, rewards)) - Mul(point, Sum(weights))
  {
    if weights != [] {
      hide Mul, Times, Pull;
      var n := |weights| - 1;
      LinearizedSum(weights[..n], rewards[..n], average, point);
      var ls := Pulls(weights, rewards, average, point);
      assert ls[..n] == Pulls(weights[..n], rewards[..n], average, point);
      TimesSplit(weights, rewards);
      MulDistributes(average, Sum(ls[..n]), ls[n]);
      MulDistributes(point, Sum(weights[..n]), weights[n]);
      OnePull(weights[n], rewards[n], average, point);
    } else {
      assert Times(weights, rewards) == [] && Pulls(weights, rewards, average, point) == [];
      assert Mul(average, 0.0) == 0.0 == Mul(point, 0.0);
    }
  }

  lemma OnePull(w: real, r: real, average: real, point: real)
    requires average > 0.0
    ensures Mul(average, Pull(w, r, average, point)) == Mul(w, r) - Mul(point, w)
  {
    var k, d := w / average, r - point;
    assert k * average == w;
    assert average * (k * d) == k * average * d;
    assert w * d == w * r - point * w;
  }

  lemma NoProduct(x: real, y: real)
    requires x > 0.0 && Mul(x, y) == 0.0
    ensures y == 0.0
  {
    Cancel(x, y);
  }

  lemma NothingPulls(weights: seq<real>, rewards: seq<real>)
    requires |weights| == |rewards| && Sum(weights) > 0.0
    ensures Sum(Times(weights, rewards)) - Mul(SelfNormalised(weights, rewards), Sum(weights)) == 0.0
  {
    var x, y := Sum(Times(weights, rewards)), Sum(weights);
    assert x / y * y == x;
  }

  method EstimateSnips(episodes: seq<LoggedEpisode>, policies: seq<Policy>, cap: Option<real>)
    returns (point: real, error: Option<real>, ess: real, identifiable: bool)
    requires |policies| >= |episodes|
    ensures var ws, rs := Weights(episodes, policies, cap), Rewards(episodes);
            error == if Sum(ws) <= 0.0 then Some(0.0) else SquaredError(Linearized(ws, rs))
    ensures point == SelfNormalised(Weights(episodes, policies, cap), Rewards(episodes))
    ensures ess == if Sum(Weights(episodes, policies, cap)) <= 0.0 then 0.0 else Kish(Weights(episodes, policies, cap))
    ensures identifiable <==> Identifiable(episodes, policies)
  {
    hide Kish, Weight, Unsupported, Sum, SquaredError;
    var n := |episodes|;
    ghost var ws, rs := Weights(episodes, policies, cap), Rewards(episodes);
    if n == 0 {
      NothingToWeigh(ws, rs);
      return 0.0, Some(0.0), 0.0, true;
    }
    var weights, rewards := new real[n](_ => 0.0), new real[n](_ => 0.0);
    identifiable := true;
    for i := 0 to n
      invariant weights[..i] == ws[..i] && rewards[..i] == rs[..i]
      invariant identifiable <==> forall k :: 0 <= k < i ==> !Unsupported(episodes[k], policies[k])
    {
      var w, supported := Weigh(episodes[i], policies[i], cap);
      identifiable := identifiable && supported;
      weights[i] := w;
      rewards[i] := episodes[i].rewardPaise as real;
    }
    WholePrefix(weights[..], ws);
    WholePrefix(rewards[..], rs);
    ess := Kish(weights[..]);
    if Sum(weights[..]) <= 0.0 {
      return 0.0, Some(0.0), 0.0, identifiable;
    }
    point := Sum(Times(weights[..], rewards[..])) / Sum(weights[..]);
    error := SquaredError(Linearized(weights[..], rewards[..]));
  }

  lemma NothingToWeigh(ws: seq<real>, rs: seq<real>)
    requires ws == rs == []
    ensures Sum(ws) == 0.0 && SelfNormalised(ws, rs) == 0.0
  {
  }

  /** It is a weighted average: between the least and the greatest reward of the episodes that carry weight. */
  lemma SnipsIsBetween(weights: seq<real>, rewards: seq<real>, low: real, high: real)
    requires |weights| == |rewards| && NonNegative(weights) && Sum(weights) > 0.0
    requires forall i :: 0 <= i < |weights| && weights[i] > 0.0 ==> low <= rewards[i] <= high
    ensures low <= SelfNormalised(weights, rewards) <= high
  {
    hide Sum, Ratio, Times;
    WeightedBetween(weights, rewards, low, high);
    RatioBetween(Sum(Times(weights, rewards)), Sum(weights), low, high);
  }

  lemma {:induction false} WeightedBetween(weights: seq<real>, rewards: seq<real>, low: real, high: real)
    requires |weights| == |rewards| && NonNegative(weights)
    requires forall i :: 0 <= i < |weights| && weights[i] > 0.0 ==> low <= rewards[i] <= high
    ensures Mul(low, Sum(weights)) <= Sum(Times(weights, rewards)) <= Mul(high, Sum(weights))
  {
    if weights != [] {
      hide Mul, Times;
      var n := |weights| - 1;
      WeightedBetween(weights[..n], rewards[..n], low, high);
      TimesSplit(weights, rewards);
      MulDistributes(low, Sum(weights[..n]), weights[n]);
      MulDistributes(high, Sum(weights[..n]), weights[n]);
      ProductBetween(weights[n], rewards[n], low, high);
    }
  }

  lemma ProductBetween(w: real, r: real, low: real, high: real)
    requires w >= 0.0 && (w > 0.0 ==> low <= r <= high)
    ensures Mul(low, w) <= Mul(w, r) <= Mul(high, w)
  {
    if w > 0.0 {
      var above, below := r - low, high - r;
      assert above * w >= 0.0 && below * w >= 0.0;
      assert above * w == w * r - low * w && below * w == high * w - w * r;
    }
  }

  /** So the estimate stays within what was earned where both policies may act. */
  lemma SnipsStaysInRange(episodes: seq<LoggedEpisode>, policies: seq<Policy>, cap: Option<real>, low: real, high: real)
    requires |policies| >= |episodes| && (cap.Some? ==> cap.value > 0.0)
    requires exists i :: 0 <= i < |episodes| && Shared(episodes[i], policies[i])
    requires forall i :: 0 <= i < |episodes| && Shared(episodes[i], policies[i]) ==>
               low <= episodes[i].rewardPaise as real <= high
    ensures low <= SelfNormalised(Weights(episodes, policies, cap), Rewards(episodes)) <= high
  {
    var ws := Weights(episodes, policies, cap);
    forall i | 0 <= i < |episodes| ensures ws[i] >= 0.0 && (ws[i] > 0.0 <==> Shared(episodes[i], policies[i])) {
      WeightIsPositiveIff(episodes[i], policies[i], cap);
    }
    hide Weight, Shared, Sum, SelfNormalised;
    var i :| 0 <= i < |episodes| && Shared(episodes[i], policies[i]);
    SumIsPositive(ws, i);
    SnipsIsBetween(ws, Rewards(episodes), low, high);
  }

  predicate Shared(e: LoggedEpisode, policy: Policy) {
    Probability(policy, e.action) > 0.0 && e.propensity > 0.0
  }

  lemma {:induction false} SumIsPositive(ws: seq<real>, i: nat)
    requires NonNegative(ws) && i < |ws| && ws[i] > 0.0
    ensures Sum(ws) > 0.0
  {
    if i < |ws| - 1 {
      SumIsPositive(ws[..|ws| - 1], i);
    } else {
      SumIsNonNegative(ws[..i]);
    }
  }

  lemma {:induction false} SumIsNonNegative(ws: seq<real>)
    requires NonNegative(ws)
    ensures Sum(ws) >= 0.0
  {
    if ws != [] {
      SumIsNonNegative(ws[..|ws| - 1]);
    }
  }

  function Shifted(rewards: seq<real>, c: real): seq<real> {
    seq(|rewards|, i requires 0 <= i < |rewards| => rewards[i] + c)
  }

  /** Paying everyone `c` more moves the estimate by exactly `c`, unless nothing carries weight. */
  lemma {:induction false} SnipsShiftsIff(weights: seq<real>, rewards: seq<real>, c: real)
    requires |weights| == |rewards|
    ensures SelfNormalised(weights, Shifted(rewards, c)) == SelfNormalised(weights, rewards) + c <==>
            c == 0.0 || Sum(weights) > 0.0
  {
    hide Sum, Ratio, Mul, Times;
    WeightedShift(weights, rewards, c);
    RatioShift(Sum(Times(weights, rewards)), Sum(Times(weights, Shifted(rewards, c))), Sum(weights), c);
  }

  lemma RatioShift(x: real, x': real, y: real, c: real)
    requires x' == x + Mul(c, y)
    ensures Ratio(x', y) == Ratio(x, y) + c <==> c == 0.0 || y > 0.0
  {
    if y > 0.0 {
      var k := Ratio(x, y);
      assert k * y == x;
      Distribute(y, k, c);
      Cancel(y, k + c);
    }
  }

  lemma {:induction false} WeightedShift(weights: seq<real>, rewards: seq<real>, c: real)
    requires |weights| == |rewards|
    ensures Sum(Times(weights, Shifted(rewards, c))) == Sum(Times(weights, rewards)) + Mul(c, Sum(weights))
  {
    if weights != [] {
      hide Mul, Times;
      var n := |weights| - 1;
      WeightedShift(weights[..n], rewards[..n], c);
      var moved := Shifted(rewards, c);
      assert moved[..n] == Shifted(rewards[..n], c) && moved[n] == rewards[n] + c;
      TimesSplit(weights, rewards);
      TimesSplit(weights, moved);
      MulDistributes(c, Sum(weights[..n]), weights[n]);
      MulDistributes(weights[n], rewards[n], c);
      MulCommutes(weights[n], c);
    }
  }

  lemma MulCommutes(x: real, y: real)
    ensures Mul(x, y) == Mul(y, x)
  {
  }
}
