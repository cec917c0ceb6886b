/** The stratified reward model, the direct method that reads it, and the doubly robust correction. */
module RewardModel {
  import opened Common
  import opened Sums
  import opened EffectiveSampleSize
  import opened Estimators

  type Stratum = (string, EvaluatedAction)

  function StratumOf(e: LoggedEpisode): Stratum {
    (e.TaxonomyCode(), e.action)
  }

  /** The key means are stored under. */
  function Joined(stratum: Stratum): string {
    stratum.0 + ":" + stratum.1.Value()
  }

  predicate EndsWith(s: string, suffix: string) {
    |suffix| <= |s| && s[|s| - |suffix|..] == suffix
  }

  // ---- fitting ----------------------------------------------------------------------

  function Collect(strata: Dict<Stratum, seq<real>>, key: Stratum, reward: real): Dict<Stratum, seq<real>> {
    var at := Find(strata, key);
    if at == |strata| then strata + [(key, [reward])] else strata[at := (key, strata[at].1 + [reward])]
  }

  function Strata(episodes: seq<LoggedEpisode>): Dict<Stratum, seq<real>> {
    if episodes == [] then []
    else
      var e := episodes[|episodes| - 1];
      Collect(Strata(episodes[..|episodes| - 1]), StratumOf(e), e.rewardPaise as real)
  }

  function MeanOrZero(xs: seq<real>): real {
    if xs == [] then 0.0 else Mean(xs)
  }

  function StratumMeans(strata: Dict<Stratum, seq<real>>): Dict<string, real> {
    seq(|strata|, i requires 0 <= i < |strata| => (Joined(strata[i].0), MeanOrZero(strata[i].1)))
  }

  function FittedMeans(episodes: seq<LoggedEpisode>): Dict<string, real> {
    StratumMeans(Strata(episodes))
  }

  // ---- predicting -------------------------------------------------------------------

  function Matching(means: Dict<string, real>, suffix: string): seq<real> {
    if means == [] then []
    else (if EndsWith(means[0].0, suffix) then [means[0].1] else []) + Matching(means[1..], suffix)
  }

  /** A stratum never seen falls back to the mean, over strata, of the means of its action. */
  function Predict(means: Dict<string, real>, taxonomy: string, action: EvaluatedAction): real {
    var at := Find(means, Joined((taxonomy, action)));
    if at < |means| then means[at].1 else MeanOrZero(Matching(means, ":" + action.Value()))
  }

  function Expected(means: Dict<string, real>, taxonomy: string, policy: Policy): real {
    if policy == [] then 0.0
    else
      var n := |policy| - 1;
      Expected(means, taxonomy, policy[..n]) +
          (if policy[n].1 > 0.0 then policy[n].1 * Predict(means, taxonomy, policy[n].0) else 0.0)
  }

  function Predictions(means: Dict<string, real>, episodes: seq<LoggedEpisode>, policies: seq<Policy>): (ps: seq<real>)
    requires |policies| >= |episodes|
    ensures |ps| == |episodes|
  {
    seq(|episodes|, i requires 0 <= i < |episodes| => Expected(means, episodes[i].TaxonomyCode(), policies[i]))
  }

  function Fitted(means: Dict<string, real>, episodes: seq<LoggedEpisode>): (fs: seq<real>)
    ensures |fs| == |episodes|
  {
    seq(|episodes|, i requires 0 <= i < |episodes| => Predict(means, episodes[i].TaxonomyCode(), episodes[i].action))
  }

  function Residuals(means: Dict<string, real>, episodes: seq<LoggedEpisode>): (rs: seq<real>)
    ensures |rs| == |episodes|
  {
    Less(Rewards(episodes), Fitted(means, episodes))
  }

  function RobustTerms(means: Dict<string, real>, episodes: seq<LoggedEpisode>, policies: seq<Policy>,
                       cap: Option<real>): seq<real>
    requires |policies| >= |episodes|
  {
    Plus(Predictions(means, episodes, policies), Times(Weights(episodes, policies, cap), Residuals(means, episodes)))
  }

  // ---- the estimators ----------------------------------------------------------------

  method ExpectedReward(means: Dict<string, real>, taxonomy: string, policy: Policy) returns (expected: real)
    ensures expected == Expected(means, taxonomy, policy)
  {
    expected := 0.0;
    for k := 0 to |policy|
      invariant expected == Expected(means, taxonomy, policy[..k])
    {
      assert policy[..k + 1][..k] == policy[..k];
      var (act, p) := policy[k];
      if p > 0.0 {
        expected := expected + p * Predict(means, taxonomy, act);
      }
    }
    assert policy[..|policy|] == policy;
  }

  class DirectMethodEstimator {
    var actionMeans: Dict<string, real>
    var fitted: bool

    constructor ()
      ensures actionMeans == [] && !fitted
    {
      actionMeans, fitted := [], false;
    }

    method Fit(episodes: seq<LoggedEpisode>)
      modifies this
      ensures fitted && actionMeans == FittedMeans(episodes)
    {
      var strata: Dict<Stratum, seq<real>> := [];
      for i := 0 to |episodes|
        invariant strata == Strata(episodes[..i])
      {
        var key := StratumOf(episodes[i]);
        assert episodes[..i + 1][..i] == episodes[..i];
        var at := Find(strata, key);
        if at == |strata| {
          strata := strata + [(key, [])];
        }
        var r := episodes[i].rewardPaise as real;
        assert [] + [r] == [r];
        strata := strata[at := (key, strata[at].1 + [r])];
      }
      assert episodes[..|episodes|] == episodes;
      actionMeans := StratumMeans(strata);
      fitted := true;
    }

    /** The mean of no predictions is not a number. */
    method Estimate(episodes: seq<LoggedEpisode>, policies: seq<Policy>)
      returns (point: Option<real>, error: Option<real>)
      requires |policies| >= |episodes|
      modifies this
      ensures fitted && actionMeans == if old(fitted) then old(actionMeans) else FittedMeans(episodes)
      ensures point == if episodes == [] then None else Some(Mean(Predictions(actionMeans, episodes, policies)))
      ensures error == SquaredError(Predictions(actionMeans, episodes, policies))
    {
      if !fitted {
        Fit(episodes);
      }
      var n := |episodes|;
      var predictions := new real[n](_ => 0.0);
      for i := 0 to n
        invariant fitted && actionMeans == if old(fitted) then old(actionMeans) else FittedMeans(episodes)
        invariant predictions[..i] == Predictions(actionMeans, episodes, policies)[..i]
      {
        var expected := ExpectedReward(actionMeans, episodes[i].TaxonomyCode(), policies[i]);
        predictions[i] := expected;
      }
      if n == 0 {
        return None, None;
      }
      WholePrefix(predictions[..], Predictions(actionMeans, episodes, policies));
      point := Some(Mean(predictions[..]));
      error := SquaredError(predictions[..]);
    }
  }

  /** The doubly robust terms under a fitted model. */
  method EstimateWith(means: Dict<string, real>, episodes: seq<LoggedEpisode>, policies: seq<Policy>, cap: Option<real>)
    returns (point: real, error: Option<real>, ess: real, identifiable: bool)
    requires |policies| >= |episodes| > 0
    ensures point == Mean(RobustTerms(means, episodes, policies, cap))
    ensures error == SquaredError(RobustTerms(means, episodes, policies, cap))
    ensures ess == Kish(Weights(episodes, policies, cap))
    ensures identifiable <==> Identifiable(episodes, policies)
  {
    hide Kish, Mean, Weight, Unsupported, Predict, Expected, SquaredError;
    var n := |episodes|;
    var terms, weights := new real[n](_ => 0.0), new real[n](_ => 0.0);
    ghost var ws, rs := Weights(episodes, policies, cap), Residuals(means, episodes);
    identifiable := true;
    for i := 0 to n
      invariant weights[..i] == ws[..i] && terms[..i] == RobustTerms(means, episodes, policies, cap)[..i]
      invariant identifiable <==> forall k :: 0 <= k < i ==> !Unsupported(episodes[k], policies[k])
    {
      var taxonomy := episodes[i].TaxonomyCode();
      var expected := ExpectedReward(means, taxonomy, policies[i]);
      var w, supported := Weigh(episodes[i], policies[i], cap);
      identifiable := identifiable && supported;
      var residual := episodes[i].rewardPaise as real - Predict(means, taxonomy, episodes[i].action);
      weights[i] := w;
      NextProduct(ws, rs, i, w, residual);
      terms[i] := expected + w * residual;
      assert terms[..i + 1] == terms[..i] + [expected + w * residual];
    }
    WholePrefix(weights[..], ws);
    WholePrefix(terms[..], RobustTerms(means, episodes, policies, cap));
    point := Mean(terms[..]);
    error := SquaredError(terms[..]);
    ess := Kish(weights[..]);
  }

  class DoublyRobustEstimator {
    const rewardModel: DirectMethodEstimator
    const cap: Option<real>

    constructor (rewardModel: DirectMethodEstimator, cap: Option<real>)
      ensures this.rewardModel == rewardModel && this.cap == cap
    {
      this.rewardModel, this.cap := rewardModel, cap;
    }

    method Estimate(episodes: seq<LoggedEpisode>, policies: seq<Policy>)
      returns (point: real, error: Option<real>, ess: real, identifiable: bool)
      requires |policies| >= |episodes|
      modifies rewardModel
      ensures episodes == [] ==>
                && point == 0.0 && error == Some(0.0) && ess == 0.0 && identifiable
                && rewardModel.fitted == old(rewardModel.fitted)
      ensures episodes != [] ==>
                && rewardModel.fitted
                && point == Mean(RobustTerms(rewardModel.actionMeans, episodes, policies, cap))
                && error == SquaredError(RobustTerms(rewardModel.actionMeans, episodes, policies, cap))
                && ess == Kish(Weights(episodes, policies, cap))
                && (identifiable <==> Identifiable(episodes, policies))
      ensures rewardModel.actionMeans ==
              if old(rewardModel.fitted) || episodes == [] then old(rewardModel.actionMeans) else FittedMeans(episodes)
    {
      if |episodes| == 0 {
        return 0.0, Some(0.0), 0.0, true;
      }
      if !rewardModel.fitted {
        rewardModel.Fit(episodes);
      }
      point, error, ess, identifiable := EstimateWith(rewardModel.actionMeans, episodes, policies, cap);
    }
  }

  // ---- the string keys are as good as the pairs they stand for -------------------------

  lemma ValuesHaveNoColon(a: EvaluatedAction)
    ensures forall i :: 0 <= i < |a.Value()| ==> a.Value()[i] != ':'
  {
  }

  lemma {:induction false} ValuesDiffer(a: EvaluatedAction, b: EvaluatedAction)
    requires a.Value() == b.Value()
    ensures a == b
  {
    assert a.Value()[|a.Value()| - 3] == b.Value()[|b.Value()| - 3];
  }

  lemma ColonInside(key: string, long: string, short: string)
    requires |short| < |long| && EndsWith(key, long) && key[|key| - |short| - 1] == ':'
    ensures exists i :: 0 <= i < |long| && long[i] == ':'
  {
    assert long[|long| - |short| - 1] == ':';
  }

  /** A stored key ends with an action's suffix exactly when it is a key of that action, whatever the taxonomy
      code contains. */
  lemma SuffixMeansAction(stratum: Stratum, action: EvaluatedAction)
    ensures EndsWith(Joined(stratum), ":" + action.Value()) <==> stratum.1 == action
  {
    hide EvaluatedAction.Value;
    var key, v, u := Joined(stratum), stratum.1.Value(), action.Value();
    var suffix := ":" + u;
    ValuesHaveNoColon(stratum.1);
    ValuesHaveNoColon(action);
    assert key[|key| - |v| - 1] == ':' && key[|key| - |v|..] == v;
    if EndsWith(key, suffix) {
      assert key[|key| - |u| - 1] == suffix[0] == ':';
      assert key[|key| - |u|..] == key[|key| - |suffix|..][1..] == suffix[1..] == u;
      if |u| < |v| {
        ColonInside(key, v, u);
      } else if |v| < |u| {
        ColonInside(key, u, v);
      }
      ValuesDiffer(stratum.1, action);
    }
    if stratum.1 == action {
      assert key[|key| - |suffix|..] == suffix;
    }
  }

  lemma KeysNeverClash(a: Stratum, b: Stratum)
    ensures Joined(a) == Joined(b) <==> a == b
  {
    if Joined(a) == Joined(b) {
      SuffixMeansAction(b, b.1);
      SuffixMeansAction(a, b.1);
      assert a.0 == Joined(a)[..|a.0|] && b.0 == Joined(b)[..|b.0|];
    }
  }

  // ---- what fitting leaves behind ------------------------------------------------------

  function InStratum(episodes: seq<LoggedEpisode>, key: Stratum): (mask: seq<bool>)
    ensures |mask| == |episodes|
  {
    seq(|episodes|, i requires 0 <= i < |episodes| => StratumOf(episodes[i]) == key)
  }

  /** One entry per stratum that occurs, holding the rewards seen there. */
  ghost predicate Collected(strata: Dict<Stratum, seq<real>>, episodes: seq<LoggedEpisode>) {
    && UniqueKeys(strata)
    && (forall i :: 0 <= i < |strata| ==> Holds(strata[i], episodes))
    && (forall i :: 0 <= i < |episodes| ==> Find(strata, StratumOf(episodes[i])) < |strata|)
  }

  ghost predicate Holds(entry: (Stratum, seq<real>), episodes: seq<LoggedEpisode>) {
    && entry.1 != []
    && |entry.1| == CountWhere(InStratum(episodes, entry.0))
    && Sum(entry.1) == SumWhere(Rewards(episodes), InStratum(episodes, entry.0))
  }

  lemma MaskNext(episodes: seq<LoggedEpisode>, e: LoggedEpisode, key: Stratum)
    ensures InStratum(episodes + [e], key) == InStratum(episodes, key) + [StratumOf(e) == key]
    ensures CountWhere(InStratum(episodes + [e], key)) ==
            CountWhere(InStratum(episodes, key)) + (if StratumOf(e) == key then 1 else 0)
    ensures SumWhere(Rewards(episodes + [e]), InStratum(episodes + [e], key))
         == SumWhere(Rewards(episodes), InStratum(episodes, key)) +
             (if StratumOf(e) == key then e.rewardPaise as real else 0.0)
  {
    var mask, rewards := InStratum(episodes, key), Rewards(episodes);
    assert InStratum(episodes + [e], key) == mask + [StratumOf(e) == key];
    assert Rewards(episodes + [e]) == rewards + [e.rewardPaise as real];
    assert (mask + [StratumOf(e) == key])[..|mask|] == mask;
    SumWhereOfNext(rewards, mask, e.rewardPaise as real, StratumOf(e) == key);
  }

  lemma {:induction false} FitCollects(episodes: seq<LoggedEpisode>)
    ensures Collected(Strata(episodes), episodes)
  {
    if episodes != [] {
      var front, e := episodes[..|episodes| - 1], episodes[|episodes| - 1];
      FitCollects(front);
      assert episodes == front + [e];
      CollectKeeps(Strata(front), front, e);
    }
  }

  lemma CollectKeeps(strata: Dict<Stratum, seq<real>>, episodes: seq<LoggedEpisode>, e: LoggedEpisode)
    requires Collected(strata, episodes)
    ensures Collected(Collect(strata, StratumOf(e), e.rewardPaise as real), episodes + [e])
  {
    hide InStratum, SumWhere, CountWhere, Rewards;
    var key, r := StratumOf(e), e.rewardPaise as real;
    var at, next := Find(strata, key), Collect(strata, key, r);
    if at == |strata| {
      NewStratum(strata, episodes, key);
      SumOfNext([], r);
      assert [] + [r] == [r];
    } else {
      SumOfNext(strata[at].1, r);
    }
    forall i | 0 <= i < |next| ensures Holds(next[i], episodes + [e]) {
      MaskNext(episodes, e, next[i].0);
      if i < |strata| {
        assert Holds(strata[i], episodes) && next[i].0 == strata[i].0;
      }
    }
    assert UniqueKeys(next);
    forall i | 0 <= i <= |episodes| ensures Find(next, StratumOf((episodes + [e])[i])) < |next| {
      var k := StratumOf((episodes + [e])[i]);
      var j := if i == |episodes| then at else Find(strata, k);
      assert next[j].0 == k;
    }
  }

  lemma NewStratum(strata: Dict<Stratum, seq<real>>, episodes: seq<LoggedEpisode>, key: Stratum)
    requires Collected(strata, episodes) && Find(strata, key) == |strata|
    ensures CountWhere(InStratum(episodes, key)) == 0 && SumWhere(Rewards(episodes), InStratum(episodes, key)) == 0.0
  {
    forall i | 0 <= i < |episodes| ensures !InStratum(episodes, key)[i] {
      assert Find(strata, StratumOf(episodes[i])) < |strata|;
    }
    SumWhereNone(Rewards(episodes), InStratum(episodes, key));
  }

  /** After fitting, a stratum that occurs predicts its own mean reward. */
  lemma PredictsStratumMean(episodes: seq<LoggedEpisode>, i: nat)
    requires i < |episodes|
    ensures var e := episodes[i];
            var mask := InStratum(episodes, StratumOf(e));
            CountWhere(mask) > 0
            && Predict(FittedMeans(episodes), e.TaxonomyCode(), e.action) * CountWhere(mask) as real ==
                SumWhere(Rewards(episodes), mask)
  {
    hide InStratum, SumWhere, CountWhere, Sum, Rewards, Mean, Joined;
    FitCollects(episodes);
    var strata, key := Strata(episodes), StratumOf(episodes[i]);
    var at := Find(strata, key);
    assert Holds(strata[at], episodes);
    StringKeysFindTheSame(strata, key);
    MeanTimesCount(strata[at].1);
  }

  lemma StringKeysFindTheSame(strata: Dict<Stratum, seq<real>>, key: Stratum)
    ensures Find(StratumMeans(strata), Joined(key)) == Find(strata, key)
  {
    hide Joined;
    var means := StratumMeans(strata);
    forall i | 0 <= i < |strata| ensures means[i].0 == Joined(key) <==> strata[i].0 == key {
      KeysNeverClash(strata[i].0, key);
    }
  }

  /** The means of an action's strata, in the order they were first seen. */
  function MeansOfAction(strata: Dict<Stratum, seq<real>>, action: EvaluatedAction): seq<real> {
    if strata == [] then []
    else (if strata[0].0.1 == action then [MeanOrZero(strata[0].1)] else []) + MeansOfAction(strata[1..], action)
  }

  lemma {:induction false} MatchingIsByAction(strata: Dict<Stratum, seq<real>>, action: EvaluatedAction)
    ensures Matching(StratumMeans(strata), ":" + action.Value()) == MeansOfAction(strata, action)
  {
    if strata != [] {
      hide Joined, EndsWith, EvaluatedAction.Value, Mean;
      MatchingIsByAction(strata[1..], action);
      SuffixMeansAction(strata[0].0, action);
      assert StratumMeans(strata)[1..] == StratumMeans(strata[1..]);
    }
  }

  /** A stratum that never occurred predicts the mean of its action's stratum means, each counting once however
      many episodes it has: not the mean over the action's episodes. */
  lemma FallbackAveragesStrata(episodes: seq<LoggedEpisode>, taxonomy: string, action: EvaluatedAction)
    requires forall e :: e in episodes ==> StratumOf(e) != (taxonomy, action)
    ensures Predict(FittedMeans(episodes), taxonomy, action) == MeanOrZero(MeansOfAction(Strata(episodes), action))
  {
    hide InStratum, SumWhere, CountWhere, Sum, Rewards, Mean, Joined, Matching, MeansOfAction;
    var strata, key := Strata(episodes), (taxonomy, action);
    FitCollects(episodes);
    var at := Find(strata, key);
    if at < |strata| {
      assert Holds(strata[at], episodes);
      NeverCounted(episodes, key);
    }
    StringKeysFindTheSame(strata, key);
    MatchingIsByAction(strata, action);
  }

  lemma NeverCounted(episodes: seq<LoggedEpisode>, key: Stratum)
    requires forall e :: e in episodes ==> StratumOf(e) != key
    ensures CountWhere(InStratum(episodes, key)) == 0
  {
    forall i | 0 <= i < |episodes| ensures !InStratum(episodes, key)[i] {
      assert episodes[i] in episodes;
    }
    SumWhereNone(Rewards(episodes), InStratum(episodes, key));
  }

  // ---- residuals cancel, stratum by stratum ----------------------------------------------

  lemma ResidualsCancel(episodes: seq<LoggedEpisode>, key: Stratum)
    ensures SumWhere(Residuals(FittedMeans(episodes), episodes), InStratum(episodes, key)) == 0.0
  {
    hide SumWhere, CountWhere, Predict, FittedMeans;
    var means, mask := FittedMeans(episodes), InStratum(episodes, key);
    SumWhereOfLess(Rewards(episodes), Fitted(means, episodes), mask);
    if i :| 0 <= i < |episodes| && StratumOf(episodes[i]) == key {
      PredictsStratumMean(episodes, i);
      SumWhereOfConstant(Fitted(means, episodes), mask, Predict(means, key.0, key.1));
    } else {
      SumWhereNone(Residuals(means, episodes), mask);
    }
  }

  function InAny(episodes: seq<LoggedEpisode>, keys: set<Stratum>): (mask: seq<bool>)
    ensures |mask| == |episodes|
  {
    seq(|episodes|, i requires 0 <= i < |episodes| => StratumOf(episodes[i]) in keys)
  }

  /** A sum that vanishes in every stratum vanishes over any set of strata. */
  lemma {:induction false} VanishesOverStrata(xs: seq<real>, episodes: seq<LoggedEpisode>, keys: set<Stratum>)
    requires |xs| == |episodes|
    requires forall key :: key in keys ==> SumWhere(xs, InStratum(episodes, key)) == 0.0
    ensures SumWhere(xs, InAny(episodes, keys)) == 0.0
  {
    if keys == {} {
      SumWhereNone(xs, InAny(episodes, keys));
    } else {
      var key :| key in keys;
      VanishesOverStrata(xs, episodes, keys - {key});
      SumWhereEither(xs, InAny(episodes, keys - {key}), InStratum(episodes, key), InAny(episodes, keys));
    }
  }

  // ---- the correction the doubly robust estimator makes -----------------------------------

  /** Whatever model it is given, doubly robust minus direct method is the mean weighted residual. */
  lemma CorrectionIsMeanResidual(means: Dict<string, real>, episodes: seq<LoggedEpisode>, policies: seq<Policy>,
                                 cap: Option<real>)
    requires |policies| >= |episodes| > 0
    ensures Mean(RobustTerms(means, episodes, policies, cap)) - Mean(Predictions(means, episodes, policies))
         == Mean(Times(Weights(episodes, policies, cap), Residuals(means, episodes)))
  {
    hide Mean, Times, Plus, Predictions, Weights, Residuals;
    MeanOfPlus(Predictions(means, episodes, policies),
               Times(Weights(episodes, policies, cap), Residuals(means, episodes)));
  }

  ghost predicate ConstantInStrata(weights: seq<real>, episodes: seq<LoggedEpisode>)
    requires |weights| == |episodes|
  {
    forall i, j :: 0 <= i < j < |episodes| && StratumOf(episodes[i]) == StratumOf(episodes[j]) ==>
          weights[i] == weights[j]
  }

  /** Fitted on the episodes it corrects, the correction vanishes when weights are constant in each stratum. */
  lemma NothingToCorrect(episodes: seq<LoggedEpisode>, policies: seq<Policy>, cap: Option<real>)
    requires |policies| >= |episodes| > 0
    requires ConstantInStrata(Weights(episodes, policies, cap), episodes)
    ensures var means := FittedMeans(episodes);
            Mean(RobustTerms(means, episodes, policies, cap)) == Mean(Predictions(means, episodes, policies))
  {
    hide FittedMeans, Weights, Sum, Times, Mean, Residuals, Predictions, RobustTerms;
    var means, ws := FittedMeans(episodes), Weights(episodes, policies, cap);
    var rs := Residuals(means, episodes);
    var keys := set i | 0 <= i < |episodes| :: StratumOf(episodes[i]);
    forall key | key in keys ensures SumWhere(Times(ws, rs), InStratum(episodes, key)) == 0.0 {
      var i :| 0 <= i < |episodes| && StratumOf(episodes[i]) == key;
      ResidualsCancel(episodes, key);
      SumWhereOfScaled(ws, rs, InStratum(episodes, key), ws[i]);
    }
    VanishesOverStrata(Times(ws, rs), episodes, keys);
    SumWhereAll(Times(ws, rs), InAny(episodes, keys));
    CorrectionIsMeanResidual(means, episodes, policies, cap);
    MeanOfNothing(Times(ws, rs));
  }

  lemma MeanOfNothing(xs: seq<real>)
    requires xs != [] && Sum(xs) == 0.0
    ensures Mean(xs) == 0.0
  {
  }
}
