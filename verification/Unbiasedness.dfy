/** What the estimators come to on average. */
module Unbiasedness {
  // In one context: the expectation over the action the logging policy takes, when an action earns `truth` on average.

  import opened Common
  import opened Sums
  import opened EffectiveSampleSize
  import opened Estimators
  import opened RewardModel

  type PerAction = EvaluatedAction -> real

  function SumActions(f: PerAction): real {
    f(RetryImmediate) + f(RetryScheduled) + f(SwitchRail) + f(CustomerNudge) + f(NoAction)
  }

  function Positive(x: real): real {
    if x > 0.0 then x else 0.0
  }

  /** How likely a policy is to act; a negative entry counts as none. */
  function Target(policy: Policy): PerAction {
    a => Positive(Probability(policy, a))
  }

  function Product(f: PerAction, g: PerAction): PerAction {
    a => Mul(f(a), g(a))
  }

  function Difference(f: PerAction, g: PerAction): PerAction {
    a => f(a) - g(a)
  }

  // ---- what a policy is expected to earn under a model -------------------------------------------

  function Model(means: Dict<string, real>, taxonomy: string): PerAction {
    a => Predict(means, taxonomy, a)
  }

  lemma {:induction false} FindInFront(policy: Policy, a: EvaluatedAction, n: nat)
    requires n <= |policy|
    ensures Find(policy[..n], a) == if Find(policy, a) < n then Find(policy, a) else n
  {
    var at := Find(policy[..n], a);
    if at < n {
      assert policy[at].0 == a;
      assert forall i :: 0 <= i < at ==> policy[..n][i] == policy[i];
    } else {
      assert forall i :: 0 <= i < n ==> policy[..n][i] == policy[i];
    }
  }

  lemma LastIsFound(policy: Policy, a: EvaluatedAction)
    requires policy != [] && UniqueKeys(policy)
    ensures var n := |policy| - 1;
            && (a == policy[n].0 ==> Probability(policy, a) == policy[n].1 && Probability(policy[..n], a) == 0.0)
            && (a != policy[n].0 ==> Probability(policy, a) == Probability(policy[..n], a))
  {
    FindInFront(policy, a, |policy| - 1);
  }

  /** Going through the dictionary adds up the expectation of the predicted reward over all five actions. */
  lemma {:induction false} ExpectedIsExpectation(means: Dict<string, real>, taxonomy: string, policy: Policy)
    requires UniqueKeys(policy)
    ensures Expected(means, taxonomy, policy) == SumActions(Product(Target(policy), Model(means, taxonomy)))
  {
    hide Predict, Probability, Mul;
    var model := Model(means, taxonomy);
    if policy == [] {
      forall a ensures Product(Target(policy), model)(a) == 0.0 {
        NoProbability(a);
        MulZero(model(a));
      }
    } else {
      var n := |policy| - 1;
      ExpectedIsExpectation(means, taxonomy, policy[..n]);
      var (act, p) := policy[n];
      forall a ensures Product(Target(policy), model)(a) ==
                       Product(Target(policy[..n]), model)(a) + if a == act then Mul(Positive(p), model(act)) else 0.0
      {
        LastIsFound(policy, a);
        MulZero(model(a));
      }
      MulZero(model(act));
      AsProduct(p, model(act));
    }
  }

  lemma NoProbability(a: EvaluatedAction)
    ensures Probability([], a) == 0.0
  {
  }

  lemma MulZero(x: real)
    ensures Mul(0.0, x) == 0.0
  {
  }

  lemma AsProduct(x: real, y: real)
    ensures Mul(x, y) == x * y
  {
  }

  // ---- what a weight makes of a propensity -------------------------------------------------------

  /** The weight of an action under the propensity that would be recorded for it. */
  function WeightAt(policy: Policy, recorded: PerAction, cap: Option<real>): PerAction {
    a => Weight(LoggedEpisode(None, a, recorded(a), 0), policy, cap)
  }

  /** Weighing undoes the propensity: what is left is the target's own probability, up to as many times the propensity
      as the cap allows, wherever the propensity is positive. */
  lemma PropensityTimesWeight(policy: Policy, recorded: PerAction, cap: Option<real>, a: EvaluatedAction)
    requires cap.Some? ==> cap.value >= 0.0
    ensures Mul(recorded(a), WeightAt(policy, recorded, cap)(a)) ==
            if recorded(a) <= 0.0 then 0.0
            else if cap.Some? && Mul(cap.value, recorded(a)) < Target(policy)(a) then Mul(cap.value, recorded(a))
            else Target(policy)(a)
  {
    var p, t := recorded(a), Probability(policy, a);
    if p > 0.0 && t > 0.0 {
      var w := t / p;
      assert w * p == t;
      if cap.Some? {
        CompareProducts(cap.value, w, p);
      }
    } else if p > 0.0 && cap.Some? {
      ProductIsNonNegative(cap.value, p);
    }
  }

  /** A log is identifiable exactly when weighing without a cap undoes every recorded propensity. */
  lemma IdentifiableIff(episodes: seq<LoggedEpisode>, policies: seq<Policy>)
    requires |policies| >= |episodes|
    ensures Identifiable(episodes, policies) <==>
            forall i :: 0 <= i < |episodes| ==>
              Mul(episodes[i].propensity, Weight(episodes[i], policies[i], None)) ==
              Target(policies[i])(episodes[i].action)
  {
    hide Weight, Unsupported, Target, Mul;
    forall i | 0 <= i < |episodes|
      ensures !Unsupported(episodes[i], policies[i]) <==>
              Mul(episodes[i].propensity, Weight(episodes[i], policies[i], None)) ==
              Target(policies[i])(episodes[i].action)
    {
      UndoneIff(episodes[i], policies[i]);
    }
  }

  lemma UndoneIff(e: LoggedEpisode, policy: Policy)
    ensures !Unsupported(e, policy) <==>
            Mul(e.propensity, Weight(e, policy, None)) == Target(policy)(e.action)
  {
    var p, t := e.propensity, Probability(policy, e.action);
    if p > 0.0 && t > 0.0 {
      assert t / p * p == t;
    } else {
      assert p * 0.0 == 0.0;
    }
  }

  lemma CompareProducts(x: real, y: real, p: real)
    requires p > 0.0
    ensures x < y <==> Mul(x, p) < Mul(y, p)
    ensures Mul(p, x) == Mul(x, p) && Mul(p, y) == Mul(y, p)
  {
    var d := y - x;
    if d > 0.0 {
      assert d * p > 0.0;
    } else {
      assert (-d) * p >= 0.0;
    }
    assert d * p == y * p - x * p;
  }

  lemma ProductIsNonNegative(x: real, y: real)
    requires x >= 0.0 && y >= 0.0
    ensures Mul(x, y) >= 0.0
  {
  }

  // ---- one term of the doubly robust estimate -------------------------------------------------------

  /** The term an episode contributes when its action earns `reward`. */
  function TermAt(means: Dict<string, real>, taxonomy: string, policy: Policy, recorded: PerAction, cap: Option<real>,
                  reward: PerAction): PerAction
  {
    a => Expected(means, taxonomy, policy)
         + Mul(WeightAt(policy, recorded, cap)(a), reward(a) - Predict(means, taxonomy, a))
  }

  /** These are the terms the estimator averages. */
  lemma TermsAreThese(means: Dict<string, real>, episodes: seq<LoggedEpisode>, policies: seq<Policy>,
                      cap: Option<real>, i: nat, recorded: PerAction, reward: PerAction)
    requires i < |episodes| <= |policies|
    requires recorded(episodes[i].action) == episodes[i].propensity
    requires reward(episodes[i].action) == episodes[i].rewardPaise as real
    ensures |RobustTerms(means, episodes, policies, cap)| == |episodes|
    ensures RobustTerms(means, episodes, policies, cap)[i] ==
            TermAt(means, episodes[i].TaxonomyCode(), policies[i], recorded, cap, reward)(episodes[i].action)
  {
    hide Expected, Predict;
    var e := episodes[i];
    assert Weights(episodes, policies, cap)[i] == WeightAt(policies[i], recorded, cap)(e.action);
    assert Residuals(means, episodes)[i] == e.rewardPaise as real - Predict(means, e.TaxonomyCode(), e.action);
  }

  /** Without a model they are those of inverse propensity scoring. */
  lemma WithoutModel(episodes: seq<LoggedEpisode>, policies: seq<Policy>, cap: Option<real>)
    requires |policies| >= |episodes|
    ensures RobustTerms([], episodes, policies, cap) == Times(Weights(episodes, policies, cap), Rewards(episodes))
  {
    hide Joined;
    forall i | 0 <= i < |episodes| ensures Residuals([], episodes)[i] == Rewards(episodes)[i] {
      NoMeans(episodes[i].TaxonomyCode(), episodes[i].action);
    }
    forall i | 0 <= i < |episodes| ensures Predictions([], episodes, policies)[i] == 0.0 {
      NoExpectation(episodes[i].TaxonomyCode(), policies[i]);
    }
    assert Residuals([], episodes) == Rewards(episodes);
  }

  lemma NoMeans(taxonomy: string, a: EvaluatedAction)
    ensures Predict([], taxonomy, a) == 0.0
  {
  }

  lemma {:induction false} NoExpectation(taxonomy: string, policy: Policy)
    ensures Expected([], taxonomy, policy) == 0.0
  {
    if policy != [] {
      NoExpectation(taxonomy, policy[..|policy| - 1]);
      NoMeans(taxonomy, policy[|policy| - 1].0);
    }
  }

  // ---- bias --------------------------------------------------------------------------------------------

  /** What a policy is really worth. */
  function Worth(policy: Policy, truth: PerAction): real {
    SumActions(Product(Target(policy), truth))
  }

  /** The expected term, over the action the logging policy takes. */
  function OnAverage(logging: PerAction, term: PerAction): real {
    SumActions(Product(logging, term))
  }

  /** What is left of an action's probability once logging and weighing have had it. */
  function Missing(policy: Policy, logging: PerAction, recorded: PerAction, cap: Option<real>): PerAction {
    Difference(Target(policy), Product(logging, WeightAt(policy, recorded, cap)))
  }

  /** The bias, exactly, whatever the model, the propensities recorded and the cap: what is missing of each action's
      probability, times what the model gets wrong about it. */
  lemma BiasIs(means: Dict<string, real>, taxonomy: string, policy: Policy, logging: PerAction, recorded: PerAction,
               cap: Option<real>, truth: PerAction)
    requires UniqueKeys(policy) && SumActions(logging) == 1.0
    ensures OnAverage(logging, TermAt(means, taxonomy, policy, recorded, cap, truth)) - Worth(policy, truth) ==
            SumActions(Product(Missing(policy, logging, recorded, cap), Difference(Model(means, taxonomy), truth)))
  {
    hide Expected, Predict, WeightAt, Mul, Target;
    var expected := Expected(means, taxonomy, policy);
    var target, model, weight := Target(policy), Model(means, taxonomy), WeightAt(policy, recorded, cap);
    ExpectedIsExpectation(means, taxonomy, policy);
    var term := TermAt(means, taxonomy, policy, recorded, cap, truth);
    var missing := Missing(policy, logging, recorded, cap);
    var wrong := Difference(model, truth);
    forall a ensures Product(logging, term)(a) - Product(target, truth)(a) ==
                     Mul(logging(a), expected) - Product(target, model)(a) + Product(missing, wrong)(a)
    {
      BiasOfOne(logging(a), expected, target(a), weight(a), model(a), truth(a));
    }
    OneExpectation(logging, expected);
  }

  /** An expectation of a constant is that constant. */
  lemma OneExpectation(logging: PerAction, c: real)
    ensures Mul(logging(RetryImmediate), c) + Mul(logging(RetryScheduled), c) + Mul(logging(SwitchRail), c)
            + Mul(logging(CustomerNudge), c) + Mul(logging(NoAction), c) == Mul(SumActions(logging), c)
    ensures Mul(1.0, c) == c
  {
  }

  lemma BiasOfOne(p: real, expected: real, t: real, w: real, m: real, y: real)
    ensures Mul(p, expected + Mul(w, y - m)) - Mul(t, y) ==
            Mul(p, expected) - Mul(t, m) + Mul(t - Mul(p, w), m - y)
  {
    var pw := p * w;
    assert p * (w * (y - m)) == pw * (y - m);
    assert p * (expected + w * (y - m)) == p * expected + p * (w * (y - m));
    assert (t - pw) * (m - y) == t * (m - y) - pw * (m - y);
  }

  /** Double protection, the one way: a model that is right about every action leaves no bias, whatever propensities
      were recorded and however they are capped. */
  lemma RightModelIsUnbiased(means: Dict<string, real>, taxonomy: string, policy: Policy, logging: PerAction,
                             recorded: PerAction, cap: Option<real>, truth: PerAction)
    requires UniqueKeys(policy) && SumActions(logging) == 1.0
    requires forall a :: Predict(means, taxonomy, a) == truth(a)
    ensures OnAverage(logging, TermAt(means, taxonomy, policy, recorded, cap, truth)) == Worth(policy, truth)
  {
    hide Predict, OnAverage, TermAt, Worth, Missing, Mul;
    BiasIs(means, taxonomy, policy, logging, recorded, cap, truth);
    forall a
      ensures Product(Missing(policy, logging, recorded, cap), Difference(Model(means, taxonomy), truth))(a) == 0.0
    {
      ZeroFactor(Missing(policy, logging, recorded, cap)(a));
    }
  }

  lemma ZeroFactor(x: real)
    ensures Mul(x, 0.0) == 0.0 && Mul(x, 1.0) == x && Mul(x, -1.0) == -x
  {
  }

  /** Logging reaches an action as often as the target wants it, if the cap allows. */
  predicate Covers(policy: Policy, logging: PerAction, cap: Option<real>, a: EvaluatedAction) {
    Target(policy)(a) > 0.0 ==>
      logging(a) > 0.0 && (cap.Some? ==> Target(policy)(a) <= Mul(cap.value, logging(a)))
  }

  /** Double protection, the other way: with the true propensities, whatever the model, there is no bias whatever the
      rewards exactly when logging covers every action the target takes. Without a model this is the estimate by
      inverse propensities. */
  lemma RightPropensitiesAreUnbiasedIff(means: Dict<string, real>, taxonomy: string, policy: Policy,
                                        logging: PerAction, cap: Option<real>)
    requires UniqueKeys(policy) && SumActions(logging) == 1.0 && forall a :: logging(a) >= 0.0
    requires cap.Some? ==> cap.value >= 0.0
    ensures (forall truth: PerAction ::
               OnAverage(logging, TermAt(means, taxonomy, policy, logging, cap, truth)) == Worth(policy, truth)) <==>
            forall a :: Covers(policy, logging, cap, a)
  {
    hide OnAverage, TermAt, Worth, Missing, Covers, Product, Predict;
    var missing := Missing(policy, logging, logging, cap);
    forall a ensures missing(a) == 0.0 <==> Covers(policy, logging, cap, a) {
      NothingMissingIff(policy, logging, cap, a);
    }
    if forall a :: Covers(policy, logging, cap, a) {
      forall truth: PerAction
        ensures OnAverage(logging, TermAt(means, taxonomy, policy, logging, cap, truth)) == Worth(policy, truth)
      {
        BiasIs(means, taxonomy, policy, logging, logging, cap, truth);
        NoTerms(missing, Difference(Model(means, taxonomy), truth));
      }
    } else {
      var a :| !Covers(policy, logging, cap, a);
      var truth: PerAction := b => Predict(means, taxonomy, b) - (if b == a then 1.0 else 0.0);
      BiasIs(means, taxonomy, policy, logging, logging, cap, truth);
      OneTerm(missing, Difference(Model(means, taxonomy), truth), a);
      assert OnAverage(logging, TermAt(means, taxonomy, policy, logging, cap, truth)) != Worth(policy, truth);
    }
  }

  lemma NothingMissingIff(policy: Policy, logging: PerAction, cap: Option<real>, a: EvaluatedAction)
    requires logging(a) >= 0.0 && (cap.Some? ==> cap.value >= 0.0)
    ensures Missing(policy, logging, logging, cap)(a) == 0.0 <==> Covers(policy, logging, cap, a)
  {
    hide WeightAt, Mul;
    PropensityTimesWeight(policy, logging, cap, a);
    if cap.Some? {
      ProductIsNonNegative(cap.value, logging(a));
    }
  }

  lemma NoTerms(f: PerAction, g: PerAction)
    requires forall a :: f(a) == 0.0
    ensures SumActions(Product(f, g)) == 0.0
  {
    hide Mul;
    forall a ensures Mul(f(a), g(a)) == 0.0 {
      MulZero(g(a));
    }
  }

  lemma OneTerm(f: PerAction, g: PerAction, a: EvaluatedAction)
    requires forall b :: g(b) == if b == a then 1.0 else 0.0
    ensures SumActions(Product(f, g)) == f(a)
  {
    hide Mul;
    forall b ensures Mul(f(b), g(b)) == if b == a then f(a) else 0.0 {
      ZeroFactor(f(b));
    }
  }

  // ---- on its own log ------------------------------------------------------------------------------------

  /** The target does what was done. */
  ghost predicate Repeats(e: LoggedEpisode, policy: Policy) {
    UniqueKeys(policy) && forall a :: Target(policy)(a) == if a == e.action then 1.0 else 0.0
  }

  /** Asked for the policy that does what the log did, the direct method fitted on that log returns what it earned. */
  lemma OnPolicyIsTheMean(episodes: seq<LoggedEpisode>, policies: seq<Policy>)
    requires |policies| >= |episodes| > 0
    requires forall i :: 0 <= i < |episodes| ==> Repeats(episodes[i], policies[i])
    ensures Mean(Predictions(FittedMeans(episodes), episodes, policies)) == Mean(Rewards(episodes))
  {
    hide FittedMeans, Predict, Sum, SumWhere, Repeats, Expected;
    var means := FittedMeans(episodes);
    forall i | 0 <= i < |episodes|
      ensures Predictions(means, episodes, policies)[i] == Fitted(means, episodes)[i]
    {
      RepeatedIsPredicted(means, episodes[i], policies[i]);
    }
    assert Predictions(means, episodes, policies) == Fitted(means, episodes);
    ResidualsSumToZero(episodes);
    SumOfResiduals(means, episodes);
  }

  lemma RepeatedIsPredicted(means: Dict<string, real>, e: LoggedEpisode, policy: Policy)
    requires Repeats(e, policy)
    ensures Expected(means, e.TaxonomyCode(), policy) == Predict(means, e.TaxonomyCode(), e.action)
  {
    hide Expected, Predict, Target;
    ExpectedIsExpectation(means, e.TaxonomyCode(), policy);
    var model := Model(means, e.TaxonomyCode());
    forall a ensures Product(Target(policy), model)(a) == if a == e.action then model(a) else 0.0 {
      MulZero(model(a));
      ZeroFactor(model(a));
    }
  }

  lemma ResidualsSumToZero(episodes: seq<LoggedEpisode>)
    ensures Sum(Residuals(FittedMeans(episodes), episodes)) == 0.0
  {
    hide FittedMeans, Sum, SumWhere, Residuals;
    var rs := Residuals(FittedMeans(episodes), episodes);
    var keys := set i | 0 <= i < |episodes| :: StratumOf(episodes[i]);
    forall key | key in keys ensures SumWhere(rs, InStratum(episodes, key)) == 0.0 {
      ResidualsCancel(episodes, key);
    }
    VanishesOverStrata(rs, episodes, keys);
    SumWhereAll(rs, InAny(episodes, keys));
  }

  lemma SumOfResiduals(means: Dict<string, real>, episodes: seq<LoggedEpisode>)
    ensures Sum(Residuals(means, episodes)) == Sum(Rewards(episodes)) - Sum(Fitted(means, episodes))
  {
    hide Sum, Predict;
    var all := seq(|episodes|, _ => true);
    SumWhereOfLess(Rewards(episodes), Fitted(means, episodes), all);
    SumWhereAll(Rewards(episodes), all);
    SumWhereAll(Fitted(means, episodes), all);
    SumWhereAll(Residuals(means, episodes), all);
  }
}
