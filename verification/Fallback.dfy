/** What is predicted for a stratum never seen. */
module Fallback {
  // The direct method is documented to predict the mean over the action instead.

  import opened Common
  import opened Sums
  import opened EffectiveSampleSize
  import opened Estimators
  import opened RewardModel

  // ---- when the fallback is the mean it is documented to be --------------------------------

  function OfAction(episodes: seq<LoggedEpisode>, action: EvaluatedAction): (mask: seq<bool>)
    ensures |mask| == |episodes|
  {
    seq(|episodes|, i requires 0 <= i < |episodes| => episodes[i].action == action)
  }

  /** The mean reward of the episodes that took an action, or zero. */
  function ActionMean(episodes: seq<LoggedEpisode>, action: EvaluatedAction): real {
    Ratio(SumWhere(Rewards(episodes), OfAction(episodes, action)), CountWhere(OfAction(episodes, action)) as real)
  }

  /** A sum over the strata of an action. */
  function Over(strata: Dict<Stratum, seq<real>>, action: EvaluatedAction, f: seq<real> -> real): real {
    if strata == [] then 0.0
    else (if strata[0].0.1 == action then f(strata[0].1) else 0.0) + Over(strata[1..], action, f)
  }

  function One(): seq<real> -> real {
    xs => 1.0
  }

  function Length(): seq<real> -> real {
    xs => |xs| as real
  }

  function Total(): seq<real> -> real {
    xs => Sum(xs)
  }

  function Average(): seq<real> -> real {
    xs => MeanOrZero(xs)
  }

  /** How much a stratum's mean weighs in the one mean beyond what it weighs in the other. */
  function Excess(strata: nat, episodes: nat): seq<real> -> real {
    xs => Mul(Mul(strata as real, |xs| as real) - episodes as real, MeanOrZero(xs))
  }

  lemma {:induction false} OverConcat(
    a: Dict<Stratum, seq<real>>, b: Dict<Stratum, seq<real>>, action: EvaluatedAction, f: seq<real> -> real)
    ensures Over(a + b, action, f) == Over(a, action, f) + Over(b, action, f)
  {
    if a == [] {
      assert a + b == b;
    } else {
      OverConcat(a[1..], b, action, f);
      assert (a + b)[0] == a[0] && (a + b)[1..] == a[1..] + b;
    }
  }

  lemma OverOne(entry: (Stratum, seq<real>), action: EvaluatedAction, f: seq<real> -> real)
    ensures Over([entry], action, f) == if entry.0.1 == action then f(entry.1) else 0.0
  {
  }

  /** Putting a reward into its stratum adds what it adds to the stratum. */
  lemma CollectAdds(
    strata: Dict<Stratum, seq<real>>, key: Stratum, r: real, action: EvaluatedAction, f: seq<real> -> real, gain: real)
    requires forall xs :: f(xs + [r]) == f(xs) + gain
    requires f([]) == 0.0
    ensures Over(Collect(strata, key, r), action, f) == Over(strata, action, f) + if key.1 == action then gain else 0.0
  {
    hide Over;
    var at := Find(strata, key);
    if at == |strata| {
      OverConcat(strata, [(key, [r])], action, f);
      OverOne((key, [r]), action, f);
      assert [] + [r] == [r];
    } else {
      var was, now := strata[at], (key, strata[at].1 + [r]);
      var a, b := strata[..at], strata[at + 1..];
      assert strata == a + [was] + b && strata[at := now] == a + [now] + b;
      OverConcat(a + [was], b, action, f);
      OverConcat(a, [was], action, f);
      OverConcat(a + [now], b, action, f);
      OverConcat(a, [now], action, f);
      OverOne(was, action, f);
      OverOne(now, action, f);
    }
  }

  /** The strata of an action hold its episodes and rewards between them. */
  lemma {:induction false} StrataAddUp(episodes: seq<LoggedEpisode>, action: EvaluatedAction)
    ensures Over(Strata(episodes), action, Total()) == SumWhere(Rewards(episodes), OfAction(episodes, action))
    ensures Over(Strata(episodes), action, Length()) == CountWhere(OfAction(episodes, action)) as real
  {
    if episodes != [] {
      hide Over, Rewards, Collect, Sum;
      var n := |episodes| - 1;
      var front, e := episodes[..n], episodes[n];
      StrataAddUp(front, action);
      assert episodes == front + [e];
      ActionNext(front, e, action);
      var r := e.rewardPaise as real;
      forall xs ensures Total()(xs + [r]) == Total()(xs) + r {
        SumOfNext(xs, r);
      }
      SumOfNone();
      CollectAdds(Strata(front), StratumOf(e), r, action, Total(), r);
      CollectAdds(Strata(front), StratumOf(e), r, action, Length(), 1.0);
    }
  }

  lemma SumOfNone()
    ensures Sum([]) == 0.0
  {
  }

  lemma ActionNext(episodes: seq<LoggedEpisode>, e: LoggedEpisode, action: EvaluatedAction)
    ensures CountWhere(OfAction(episodes + [e], action)) ==
            CountWhere(OfAction(episodes, action)) + if e.action == action then 1 else 0
    ensures SumWhere(Rewards(episodes + [e]), OfAction(episodes + [e], action)) ==
            SumWhere(Rewards(episodes), OfAction(episodes, action)) +
            if e.action == action then e.rewardPaise as real else 0.0
  {
    var mask, rewards := OfAction(episodes, action), Rewards(episodes);
    assert OfAction(episodes + [e], action) == mask + [e.action == action];
    assert Rewards(episodes + [e]) == rewards + [e.rewardPaise as real];
    assert (mask + [e.action == action])[..|mask|] == mask;
    SumWhereOfNext(rewards, mask, e.rewardPaise as real, e.action == action);
  }

  /** How many strata an action has. */
  function StrataCount(strata: Dict<Stratum, seq<real>>, action: EvaluatedAction): nat {
    |MeansOfAction(strata, action)|
  }

  lemma {:induction false} MeansOverStrata(strata: Dict<Stratum, seq<real>>, action: EvaluatedAction)
    ensures Over(strata, action, One()) == StrataCount(strata, action) as real
    ensures Over(strata, action, Average()) == Sum(MeansOfAction(strata, action))
  {
    if strata != [] {
      hide Mean;
      MeansOverStrata(strata[1..], action);
      var rest := MeansOfAction(strata[1..], action);
      SumOfFirst(MeanOrZero(strata[0].1), rest);
      assert [] + rest == rest;
    } else {
      SumOfNone();
    }
  }

  lemma {:induction false} SumOfFirst(x: real, xs: seq<real>)
    ensures Sum([x] + xs) == x + Sum(xs)
  {
    if xs == [] {
      assert [x] + xs == [x];
    } else {
      var n := |xs| - 1;
      SumOfFirst(x, xs[..n]);
      assert ([x] + xs)[..n + 1] == [x] + xs[..n];
    }
  }

  /** Both means are of the same stratum means, in different proportions. */
  lemma {:induction false} ExcessOverStrata(strata: Dict<Stratum, seq<real>>, action: EvaluatedAction, k: nat, n: nat)
    requires forall i :: 0 <= i < |strata| ==> strata[i].1 != []
    ensures Over(strata, action, Excess(k, n)) ==
            Mul(k as real, Over(strata, action, Total())) - Mul(n as real, Over(strata, action, Average()))
  {
    if strata != [] {
      hide Mean, Sum, Mul;
      ExcessOverStrata(strata[1..], action, k, n);
      ExcessOfOne(strata[0].1, k, n);
      MulDistributes(k as real, Sum(strata[0].1), Over(strata[1..], action, Total()));
      MulDistributes(n as real, MeanOrZero(strata[0].1), Over(strata[1..], action, Average()));
    } else {
      assert Mul(k as real, 0.0) == 0.0 == Mul(n as real, 0.0);
    }
  }

  lemma ExcessOfOne(xs: seq<real>, k: nat, n: nat)
    requires xs != []
    ensures Excess(k, n)(xs) == Mul(k as real, Sum(xs)) - Mul(n as real, MeanOrZero(xs))
  {
    hide Sum, Mean, Mul;
    MeanTimesCount(xs);
    var k', c, n', m := k as real, |xs| as real, n as real, Mean(xs);
    Subtract(Mul(k', c), n', m);
    Associate(k', c, m);
    AsMul(m, c);
    assert Mul(m, c) == Sum(xs);
    assert Mul(Mul(k', c), m) == Mul(k', Sum(xs));
    assert Excess(k, n)(xs) == Mul(Mul(k', c) - n', m);
  }

  lemma AsMul(x: real, y: real)
    ensures Mul(x, y) == x * y
  {
  }

  lemma Subtract(x: real, n: real, m: real)
    ensures Mul(x - n, m) == Mul(x, m) - Mul(n, m)
  {
  }

  lemma Associate(k: real, c: real, m: real)
    ensures Mul(Mul(k, c), m) == Mul(k, Mul(m, c))
  {
  }

  /** Two quotients agree exactly when their cross products do; a zero denominator counts as zero. */
  lemma QuotientsAgreeIff(s: real, k: real, t: real, n: real)
    requires k >= 0.0 && n >= 0.0 && (k == 0.0 <==> n == 0.0)
    ensures Ratio(s, k) == Ratio(t, n) <==> k == 0.0 || Mul(k, t) == Mul(n, s)
  {
    if k > 0.0 {
      var x, y := s / k, t / n;
      assert x * k == s && y * n == t;
      var kn := k * n;
      assert Mul(n, s) == kn * x && Mul(k, t) == kn * y;
      assert kn > 0.0;
      if kn * x == kn * y {
        SameFactor(kn, x, y);
      }
    }
  }

  lemma SameFactor(c: real, x: real, y: real)
    requires c > 0.0 && c * x == c * y
    ensures x == y
  {
    Cancel(c, x);
    Cancel(c, y);
  }

  ghost predicate Unseen(episodes: seq<LoggedEpisode>, key: Stratum) {
    forall e :: e in episodes ==> StratumOf(e) != key
  }

  /** For a stratum never seen, what is predicted is the documented action-wide mean exactly when the means of the
      action's strata, each weighed by how far its share of the episodes is from an equal one, balance. */
  lemma FallbackIsActionMeanIff(episodes: seq<LoggedEpisode>, taxonomy: string, action: EvaluatedAction)
    requires Unseen(episodes, (taxonomy, action))
    ensures var strata := Strata(episodes);
            var k, n := StrataCount(strata, action), CountWhere(OfAction(episodes, action));
            Predict(FittedMeans(episodes), taxonomy, action) == ActionMean(episodes, action) <==>
            Over(strata, action, Excess(k, n)) == 0.0
  {
    hide Over, Mul, Ratio, Sum, Predict, FittedMeans, SumWhere, CountWhere, MeansOfAction, Rewards, Strata, OfAction;
    var strata := Strata(episodes);
    var k, n := StrataCount(strata, action), CountWhere(OfAction(episodes, action));
    FallbackAveragesStrata(episodes, taxonomy, action);
    FitCollects(episodes);
    CollectedAreSome(strata, episodes);
    MeansOverStrata(strata, action);
    StrataAddUp(episodes, action);
    SomeStrata(strata, action);
    ExcessOverStrata(strata, action, k, n);
    var means := MeansOfAction(strata, action);
    MeanIsRatio(means);
    QuotientsAgreeIff(Sum(means), k as real, SumWhere(Rewards(episodes), OfAction(episodes, action)), n as real);
    if k == 0 {
      NothingOver(strata, action, Excess(k, n));
    }
  }

  lemma CollectedAreSome(strata: Dict<Stratum, seq<real>>, episodes: seq<LoggedEpisode>)
    requires Collected(strata, episodes)
    ensures forall i :: 0 <= i < |strata| ==> strata[i].1 != []
  {
    assert forall i :: 0 <= i < |strata| ==> Holds(strata[i], episodes);
  }

  lemma MeanIsRatio(xs: seq<real>)
    ensures MeanOrZero(xs) == Ratio(Sum(xs), |xs| as real)
  {
  }

  /** An action has strata exactly when it has episodes. */
  lemma {:induction false} SomeStrata(strata: Dict<Stratum, seq<real>>, action: EvaluatedAction)
    requires forall i :: 0 <= i < |strata| ==> strata[i].1 != []
    ensures Over(strata, action, Length()) >= StrataCount(strata, action) as real
    ensures StrataCount(strata, action) == 0 <==> Over(strata, action, Length()) == 0.0
  {
    if strata != [] {
      SomeStrata(strata[1..], action);
    }
  }

  lemma {:induction false} NothingOver(strata: Dict<Stratum, seq<real>>, action: EvaluatedAction, f: seq<real> -> real)
    requires StrataCount(strata, action) == 0
    ensures Over(strata, action, f) == 0.0
  {
    if strata != [] {
      NothingOver(strata[1..], action, f);
    }
  }

  // ---- over every assignment of rewards -----------------------------------------------------

  /** The same log with other rewards. */
  function Rewarded(episodes: seq<LoggedEpisode>, rewards: seq<int>): (log: seq<LoggedEpisode>)
    requires |rewards| == |episodes|
    ensures |log| == |episodes|
  {
    seq(|episodes|, i requires 0 <= i < |episodes| => episodes[i].(rewardPaise := rewards[i]))
  }

  lemma RewardedSame(episodes: seq<LoggedEpisode>, rewards: seq<int>, key: Stratum)
    requires |rewards| == |episodes|
    ensures var log := Rewarded(episodes, rewards);
            && InStratum(log, key) == InStratum(episodes, key)
            && OfAction(log, key.1) == OfAction(episodes, key.1)
            && (Unseen(episodes, key) ==> Unseen(log, key))
            && forall i :: 0 <= i < |log| ==> StratumOf(log[i]) == StratumOf(episodes[i])
  {
    var log := Rewarded(episodes, rewards);
    assert InStratum(log, key) == InStratum(episodes, key);
    assert OfAction(log, key.1) == OfAction(episodes, key.1);
    if Unseen(episodes, key) {
      forall e | e in log ensures StratumOf(e) != key {
        var i :| 0 <= i < |log| && log[i] == e;
        assert episodes[i] in episodes;
      }
    }
  }

  /** All strata of an action occur equally often. */
  ghost predicate Balanced(episodes: seq<LoggedEpisode>, action: EvaluatedAction) {
    forall i, j :: 0 <= i < |episodes| && 0 <= j < |episodes| && episodes[i].action == action == episodes[j].action ==>
      CountWhere(InStratum(episodes, StratumOf(episodes[i]))) == CountWhere(InStratum(episodes, StratumOf(episodes[j])))
  }

  /** A stratum that was collected occurs. */
  lemma StratumOccurs(strata: Dict<Stratum, seq<real>>, episodes: seq<LoggedEpisode>, at: nat) returns (i: nat)
    requires Collected(strata, episodes) && at < |strata|
    ensures i < |episodes| && StratumOf(episodes[i]) == strata[at].0
    ensures |strata[at].1| == CountWhere(InStratum(episodes, strata[at].0))
  {
    assert Holds(strata[at], episodes);
    if forall i :: 0 <= i < |episodes| ==> StratumOf(episodes[i]) != strata[at].0 {
      SumWhereNone(Rewards(episodes), InStratum(episodes, strata[at].0));
    }
    i :| 0 <= i < |episodes| && StratumOf(episodes[i]) == strata[at].0;
  }

  /** Two counts that differ cannot both be the average one. */
  lemma {:induction false} EqualSizes(strata: Dict<Stratum, seq<real>>, action: EvaluatedAction, size: nat)
    requires forall i :: 0 <= i < |strata| && strata[i].0.1 == action ==> |strata[i].1| == size
    ensures Over(strata, action, Length()) == Mul(size as real, StrataCount(strata, action) as real)
  {
    if strata == [] {
      assert Mul(size as real, 0.0) == 0.0;
    } else {
      hide Mul;
      EqualSizes(strata[1..], action, size);
      MulDistributes(size as real, 1.0, StrataCount(strata[1..], action) as real);
      MulByOne(size as real);
    }
  }

  lemma MulByOne(x: real)
    ensures Mul(x, 1.0) == x
  {
  }

  /** Only one stratum of the action contributes. */
  lemma {:induction false} OverSingle(
    strata: Dict<Stratum, seq<real>>, action: EvaluatedAction, f: seq<real> -> real, at: nat)
    requires at < |strata| && strata[at].0.1 == action
    requires forall i :: 0 <= i < |strata| && i != at && strata[i].0.1 == action ==> f(strata[i].1) == 0.0
    ensures Over(strata, action, f) == f(strata[at].1)
  {
    if at == 0 {
      OverZero(strata[1..], action, f);
    } else {
      OverSingle(strata[1..], action, f, at - 1);
    }
  }

  lemma {:induction false} OverZero(strata: Dict<Stratum, seq<real>>, action: EvaluatedAction, f: seq<real> -> real)
    requires forall i :: 0 <= i < |strata| && strata[i].0.1 == action ==> f(strata[i].1) == 0.0
    ensures Over(strata, action, f) == 0.0
  {
    if strata != [] {
      OverZero(strata[1..], action, f);
    }
  }

  /** Balanced strata balance whatever their rewards. */
  lemma BalancedHasNoExcess(episodes: seq<LoggedEpisode>, action: EvaluatedAction)
    requires Balanced(episodes, action)
    ensures var strata := Strata(episodes);
            Over(strata, action, Excess(StrataCount(strata, action), CountWhere(OfAction(episodes, action)))) == 0.0
  {
    hide Over, CountWhere, InStratum, OfAction, Strata, MeansOfAction;
    var strata := Strata(episodes);
    var k, n := StrataCount(strata, action), CountWhere(OfAction(episodes, action));
    FitCollects(episodes);
    StrataAddUp(episodes, action);
    if at: nat :| at < |strata| && strata[at].0.1 == action {
      var size := |strata[at].1|;
      var i := StratumOccurs(strata, episodes, at);
      forall b | 0 <= b < |strata| && strata[b].0.1 == action ensures |strata[b].1| == size {
        var j := StratumOccurs(strata, episodes, b);
      }
      EqualSizes(strata, action, size);
      forall b | 0 <= b < |strata| && strata[b].0.1 == action ensures Excess(k, n)(strata[b].1) == 0.0 {
        NoExcess(strata[b].1, k, n);
      }
    }
    OverZero(strata, action, Excess(k, n));
  }

  lemma NoExcess(xs: seq<real>, k: nat, n: nat)
    requires n as real == Mul(|xs| as real, k as real)
    ensures Excess(k, n)(xs) == 0.0
  {
    MulCommutes(|xs| as real, k as real);
    assert Mul(0.0, MeanOrZero(xs)) == 0.0;
  }

  /** One paisa for each episode of one stratum, nothing for the others. */
  function OnlyIn(episodes: seq<LoggedEpisode>, key: Stratum): (rewards: seq<int>)
    ensures |rewards| == |episodes|
  {
    seq(|episodes|, i requires 0 <= i < |episodes| => if StratumOf(episodes[i]) == key then 1 else 0)
  }

  lemma OnlyInMeans(episodes: seq<LoggedEpisode>, key: Stratum, entry: (Stratum, seq<real>))
    requires Holds(entry, Rewarded(episodes, OnlyIn(episodes, key)))
    ensures MeanOrZero(entry.1) == if entry.0 == key then 1.0 else 0.0
    ensures |entry.1| == CountWhere(InStratum(episodes, entry.0))
  {
    hide SumWhere, CountWhere, Sum;
    var log := Rewarded(episodes, OnlyIn(episodes, key));
    RewardedSame(episodes, OnlyIn(episodes, key), entry.0);
    var c := if entry.0 == key then 1.0 else 0.0;
    SumWhereOfConstant(Rewards(log), InStratum(log, entry.0), c);
    Cancel(|entry.1| as real, c);
  }

  /** If one stratum's share is not an equal one, paying it alone tells the two means apart. */
  lemma PayingOneTells(episodes: seq<LoggedEpisode>, action: EvaluatedAction, key: Stratum, k: nat, n: nat)
    requires key.1 == action && exists i :: 0 <= i < |episodes| && StratumOf(episodes[i]) == key
    requires k * CountWhere(InStratum(episodes, key)) != n
    ensures Over(Strata(Rewarded(episodes, OnlyIn(episodes, key))), action, Excess(k, n)) != 0.0
  {
    hide Over, CountWhere, InStratum, Strata;
    var log := Rewarded(episodes, OnlyIn(episodes, key));
    var strata := Strata(log);
    FitCollects(log);
    RewardedSame(episodes, OnlyIn(episodes, key), key);
    var i :| 0 <= i < |episodes| && StratumOf(episodes[i]) == key;
    assert Find(strata, StratumOf(log[i])) < |strata|;
    var at := Find(strata, key);
    forall b | 0 <= b < |strata| ensures Excess(k, n)(strata[b].1) ==
      if b == at then (k * CountWhere(InStratum(episodes, key)) - n) as real else 0.0
    {
      assert Holds(strata[b], log);
      OnlyInMeans(episodes, key, strata[b]);
      assert b != at ==> strata[b].0 != key;
      ExcessWhenPaid(strata[b].1, k, n, b == at);
    }
    OverSingle(strata, action, Excess(k, n), at);
  }

  lemma ExcessWhenPaid(xs: seq<real>, k: nat, n: nat, paid: bool)
    requires MeanOrZero(xs) == if paid then 1.0 else 0.0
    ensures Excess(k, n)(xs) == if paid then (k * |xs| - n) as real else 0.0
  {
    hide Mul, MeanOrZero;
    RealProduct(k, |xs|);
    MulByOne(Mul(k as real, |xs| as real) - n as real);
    MulByZero(Mul(k as real, |xs| as real) - n as real);
  }

  lemma MulByZero(x: real)
    ensures Mul(x, 0.0) == 0.0
  {
  }

  lemma RealProduct(a: nat, b: nat)
    ensures (a * b) as real == Mul(a as real, b as real)
  {
  }

  /** The fallback is the documented action-wide mean whatever the rewards exactly when all strata of the action
      occur equally often. */
  lemma FallbackIsAlwaysActionMeanIff(episodes: seq<LoggedEpisode>, taxonomy: string, action: EvaluatedAction)
    requires Unseen(episodes, (taxonomy, action))
    ensures Balanced(episodes, action) <==>
            forall rewards: seq<int> :: |rewards| == |episodes| ==>
              FallbackAgrees(Rewarded(episodes, rewards), taxonomy, action)
  {
    hide FallbackAgrees, Balanced;
    if Balanced(episodes, action) {
      forall rewards: seq<int> | |rewards| == |episodes|
        ensures FallbackAgrees(Rewarded(episodes, rewards), taxonomy, action)
      {
        BalancedAgrees(episodes, rewards, taxonomy, action);
      }
    } else {
      var rewards := UnbalancedDisagrees(episodes, taxonomy, action);
    }
  }

  predicate FallbackAgrees(episodes: seq<LoggedEpisode>, taxonomy: string, action: EvaluatedAction) {
    Predict(FittedMeans(episodes), taxonomy, action) == ActionMean(episodes, action)
  }

  lemma BalancedAgrees(episodes: seq<LoggedEpisode>, rewards: seq<int>, taxonomy: string, action: EvaluatedAction)
    requires Unseen(episodes, (taxonomy, action)) && Balanced(episodes, action) && |rewards| == |episodes|
    ensures FallbackAgrees(Rewarded(episodes, rewards), taxonomy, action)
  {
    var log := Rewarded(episodes, rewards);
    RewardedSame(episodes, rewards, (taxonomy, action));
    forall i, j | 0 <= i < |log| && 0 <= j < |log| && log[i].action == action == log[j].action
      ensures CountWhere(InStratum(log, StratumOf(log[i]))) == CountWhere(InStratum(log, StratumOf(log[j])))
    {
      RewardedSame(episodes, rewards, StratumOf(log[i]));
      RewardedSame(episodes, rewards, StratumOf(log[j]));
    }
    BalancedHasNoExcess(log, action);
    FallbackIsActionMeanIff(log, taxonomy, action);
  }

  lemma UnbalancedDisagrees(episodes: seq<LoggedEpisode>, taxonomy: string, action: EvaluatedAction)
    returns (rewards: seq<int>)
    requires Unseen(episodes, (taxonomy, action)) && !Balanced(episodes, action)
    ensures |rewards| == |episodes| && !FallbackAgrees(Rewarded(episodes, rewards), taxonomy, action)
  {
    hide CountWhere, InStratum, Predict, FittedMeans, ActionMean, Over, Strata, MeansOfAction, OfAction;
    var i, j :| 0 <= i < |episodes| && 0 <= j < |episodes| && episodes[i].action == action == episodes[j].action
                && CountWhere(InStratum(episodes, StratumOf(episodes[i]))) !=
                   CountWhere(InStratum(episodes, StratumOf(episodes[j])));
    var c, d := CountWhere(InStratum(episodes, StratumOf(episodes[i]))),
        CountWhere(InStratum(episodes, StratumOf(episodes[j])));
    var n := CountWhere(OfAction(episodes, action));
    // The number of strata does not depend on the rewards.
    var k := StrataCount(Strata(episodes), action);
    StrataCountIsPositive(episodes, i);
    var at := if k * c != n then i else j;
    assert k * CountWhere(InStratum(episodes, StratumOf(episodes[at]))) != n by {
      if k * c == n && k * d == n {
        SameProduct(k, c, d);
      }
    }
    var key := StratumOf(episodes[at]);
    rewards := OnlyIn(episodes, key);
    var log := Rewarded(episodes, rewards);
    PayingOneTells(episodes, action, key, k, n);
    RewardedSame(episodes, rewards, (taxonomy, action));
    SameStrata(episodes, rewards, action);
    FallbackIsActionMeanIff(log, taxonomy, action);
  }

  lemma SameProduct(k: nat, c: nat, d: nat)
    requires k > 0 && k * c == k * d
    ensures c == d
  {
  }

  lemma StrataCountIsPositive(episodes: seq<LoggedEpisode>, i: nat)
    requires i < |episodes|
    ensures StrataCount(Strata(episodes), episodes[i].action) > 0
  {
    hide CountWhere, Strata, MeansOfAction, Over;
    var action := episodes[i].action;
    FitCollects(episodes);
    CollectedAreSome(Strata(episodes), episodes);
    SomeStrata(Strata(episodes), action);
    StrataAddUp(episodes, action);
    CountIsPositive(OfAction(episodes, action), i);
  }

  /** Rewards do not change which strata there are. */
  lemma {:induction false} SameStrata(episodes: seq<LoggedEpisode>, rewards: seq<int>, action: EvaluatedAction)
    requires |rewards| == |episodes|
    ensures SameKeys(Strata(Rewarded(episodes, rewards)), Strata(episodes))
    ensures StrataCount(Strata(Rewarded(episodes, rewards)), action) == StrataCount(Strata(episodes), action)
  {
    var log := Rewarded(episodes, rewards);
    if episodes != [] {
      hide Collect, SameKeys, MeansOfAction;
      var n := |episodes| - 1;
      SameStrata(episodes[..n], rewards[..n], action);
      assert log[..n] == Rewarded(episodes[..n], rewards[..n]);
      CollectKeepsKeys(Strata(log[..n]), Strata(episodes[..n]), StratumOf(episodes[n]),
                       rewards[n] as real, episodes[n].rewardPaise as real);
    }
    SameKeysCount(Strata(log), Strata(episodes), action);
  }

  predicate SameKeys(a: Dict<Stratum, seq<real>>, b: Dict<Stratum, seq<real>>) {
    |a| == |b| && forall i :: 0 <= i < |a| ==> a[i].0 == b[i].0
  }

  lemma CollectKeepsKeys(
    a: Dict<Stratum, seq<real>>, b: Dict<Stratum, seq<real>>, key: Stratum, r: real, r': real)
    requires SameKeys(a, b)
    ensures SameKeys(Collect(a, key, r), Collect(b, key, r'))
  {
    FindAt(b, key, Find(a, key));
  }

  lemma {:induction false} FindAt(dict: Dict<Stratum, seq<real>>, key: Stratum, at: nat)
    requires at <= |dict| && (at < |dict| ==> dict[at].0 == key) && forall i :: 0 <= i < at ==> dict[i].0 != key
    ensures Find(dict, key) == at
  {
    if at > 0 {
      FindAt(dict[1..], key, at - 1);
    }
  }

  lemma {:induction false} SameKeysCount(
    a: Dict<Stratum, seq<real>>, b: Dict<Stratum, seq<real>>, action: EvaluatedAction)
    requires SameKeys(a, b)
    ensures StrataCount(a, action) == StrataCount(b, action)
  {
    if a != [] {
      SameKeysCount(a[1..], b[1..], action);
    }
  }

  /** Two strata of an action, of one and of two episodes, with means of nought and three: a third code falls back to
      one and a half, where the action earned two. */
  lemma FallbackCanDiffer(a: string, b: string, unseen: string, action: EvaluatedAction)
    requires a != b && unseen != a && unseen != b
    ensures var log := UnevenLog(a, b, action);
            && Predict(FittedMeans(log), unseen, action) == 1.5
            && ActionMean(log, action) == 2.0
  {
    var log := UnevenLog(a, b, action);
    FallbackAveragesStrata(log, unseen, action);
    UnevenStrata(a, b, action);
    UnevenMeans(a, b, action);
    UnevenActionMean(a, b, action);
  }

  function UnevenLog(a: string, b: string, action: EvaluatedAction): seq<LoggedEpisode> {
    [LoggedEpisode(Some(a), action, 1.0, 0), LoggedEpisode(Some(b), action, 1.0, 3),
     LoggedEpisode(Some(b), action, 1.0, 3)]
  }

  lemma UnevenStrata(a: string, b: string, action: EvaluatedAction)
    requires a != b
    ensures Strata(UnevenLog(a, b, action)) == [((a, action), [0.0]), ((b, action), [3.0, 3.0])]
  {
    var log := UnevenLog(a, b, action);
    var none: Dict<Stratum, seq<real>> := [];
    var one, two := none + [((a, action), [0.0])], [((a, action), [0.0]), ((b, action), [3.0])];
    StrataNext([], log[0]);
    StrataNext([log[0]], log[1]);
    StrataNext([log[0], log[1]], log[2]);
    assert [] + [log[0]] == [log[0]] && [log[0]] + [log[1]] == [log[0], log[1]] && [log[0], log[1]] + [log[2]] == log;
    FindAt(none, (a, action), 0);
    FindAt(one, (b, action), 1);
    FindAt(two, (b, action), 1);
    assert one + [((b, action), [3.0])] == two;
    assert [3.0] + [3.0] == [3.0, 3.0];
  }

  lemma StrataNext(episodes: seq<LoggedEpisode>, e: LoggedEpisode)
    ensures Strata(episodes + [e]) == Collect(Strata(episodes), StratumOf(e), e.rewardPaise as real)
  {
    assert (episodes + [e])[..|episodes|] == episodes;
  }

  lemma UnevenMeans(a: string, b: string, action: EvaluatedAction)
    ensures MeanOrZero(MeansOfAction([((a, action), [0.0]), ((b, action), [3.0, 3.0])], action)) == 1.5
  {
    hide Sum;
    MeanOfTwo(0.0, 3.0);
    MeanOfTwo(3.0, 3.0);
    MeanOfEqual([0.0], 0.0);
    var strata: Dict<Stratum, seq<real>> := [((a, action), [0.0]), ((b, action), [3.0, 3.0])];
    assert MeansOfAction(strata[1..][1..], action) == [];
    assert MeansOfAction(strata[1..], action) == [MeanOrZero([3.0, 3.0])];
    assert MeansOfAction(strata, action) == [0.0, 3.0];
  }

  lemma MeanOfTwo(x: real, y: real)
    ensures Mean([x, y]) == (x + y) / 2.0
  {
    SumOfNone();
    SumOfNext([], x);
    SumOfNext([x], y);
    assert [] + [x] == [x] && [x] + [y] == [x, y];
  }

  lemma UnevenActionMean(a: string, b: string, action: EvaluatedAction)
    ensures ActionMean(UnevenLog(a, b, action), action) == 2.0
  {
    var log := UnevenLog(a, b, action);
    SumWhereAll(Rewards(log), OfAction(log, action));
    SumOfNone();
    SumOfNext([], 0.0);
    SumOfNext([0.0], 3.0);
    SumOfNext([0.0, 3.0], 3.0);
    assert [] + [0.0] == [0.0] && [0.0] + [3.0] == [0.0, 3.0] && [0.0, 3.0] + [3.0] == Rewards(log);
  }
}
