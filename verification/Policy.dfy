/** From a failure signal to the action taken. */
module Policy {
  // Diagnosis, recoverability, optimisation. Probabilities are whole percentages, so expected values are exact.

  import opened Common

  datatype TaxonomyCode = InsufficientFunds | IssuerOutage | NetworkTimeout | MandateInvalid
                        | CardExpired | RiskDecline | CustomerAbandoned | Unknown

  datatype Health = Healthy | Degraded | Down

  datatype SuggestedAction = SuggestRetry | SuggestSmartSchedule | SuggestSwitch | SuggestNudge | SuggestNothing

  datatype Features = Features(railId: string, amountPaise: int, prePayday: bool, postPayday: bool, recurring: bool,
                               dayOfMonth: int)

  datatype Snapshot = Snapshot(railId: string, state: Health, successRate5m: real)

  datatype Mapping = Mapping(code: TaxonomyCode, confidence: real, rule: string, retryableOnAlternative: bool)

  datatype Token = RuleMatched(rule: string) | RailIs(state: Health) | RailRate(rate: real) | OutageCorroborated
                 | PrePaydayPressure | PostPaydayDepletion | TransientTimeout | MandateTerminated
                 | InstrumentExpired | CustomerChurn | RiskBlock

  /** Why a payment is said to have failed. */
  datatype Cause =
    | Classified(code: TaxonomyCode)
    | IssuerDegraded(railId: string)
    | FundsBeforePayday
    | GlitchOnHealthyRail
    | MandateRevoked
    | CardPastValidity
    | LeftByCustomer
    | DeclinedAsRisk
    | Ambiguous

  datatype Diagnosis = Diagnosis(code: TaxonomyCode, confidence: real, cause: Cause, railId: string, railState: Health,
                                 tokens: seq<Token>, action: SuggestedAction, diagnosedAt: int)

  // ---- diagnosis ----------------------------------------------------------------------

  /** On an unhealthy rail, what a rail can explain is put down to the issuer. */
  function DiagnosedCode(mapped: TaxonomyCode, state: Health): TaxonomyCode {
    if state != Healthy && (mapped == NetworkTimeout || mapped == Unknown || mapped == IssuerOutage) then IssuerOutage
    else mapped
  }

  /** The cause goes with the diagnosed code; funds are put down to the payday only before it. */
  ghost predicate Explains(cause: Cause, code: TaxonomyCode, features: Features, state: Health) {
    match code
    case IssuerOutage => cause == if state != Healthy then IssuerDegraded(features.railId) else Classified(IssuerOutage)
    case InsufficientFunds => cause == if features.prePayday then FundsBeforePayday else Classified(InsufficientFunds)
    case NetworkTimeout => cause == GlitchOnHealthyRail
    case MandateInvalid => cause == MandateRevoked
    case CardExpired => cause == CardPastValidity
    case CustomerAbandoned => cause == LeftByCustomer
    case RiskDecline => cause == DeclinedAsRisk
    case Unknown => cause == Ambiguous
  }

  /** The tokens tell the rule, an unhealthy rail, the outage it corroborates, and what the code means here. */
  ghost predicate Tells(tokens: seq<Token>, rule: string, code: TaxonomyCode, features: Features, snapshot: Snapshot) {
    var unhealthy := snapshot.state != Healthy;
    tokens ==
      [RuleMatched(rule)]
      + (if unhealthy then [RailIs(snapshot.state), RailRate(snapshot.successRate5m)] else [])
      + (match code
         case IssuerOutage => if unhealthy then [OutageCorroborated] else []
         case InsufficientFunds =>
           if features.prePayday then [PrePaydayPressure]
           else if features.postPayday then [PostPaydayDepletion]
           else []
         case NetworkTimeout => [TransientTimeout]
         case MandateInvalid => [MandateTerminated]
         case CardExpired => [InstrumentExpired]
         case CustomerAbandoned => [CustomerChurn]
         case RiskDecline => [RiskBlock]
         case Unknown => [])
  }

  method Diagnose(mapping: Mapping, features: Features, snapshot: Snapshot, now: int) returns (d: Diagnosis)
    ensures d.railId == features.railId && d.railState == snapshot.state && d.diagnosedAt == now
    ensures d.code == DiagnosedCode(mapping.code, snapshot.state)
    ensures d.code == IssuerOutage <==>
              || mapping.code == IssuerOutage
              || (snapshot.state != Healthy && mapping.code in {NetworkTimeout, Unknown})
    ensures d.code != IssuerOutage ==> d.code == mapping.code
    ensures Explains(d.cause, d.code, features, snapshot.state)
    ensures Tells(d.tokens, mapping.rule, d.code, features, snapshot)
    ensures d.confidence ==
            if d.code == IssuerOutage && snapshot.state != Healthy then
              (if mapping.confidence < 0.95 then 0.95 else mapping.confidence)
            else if d.code == InsufficientFunds && features.prePayday then
              (if mapping.confidence + 0.05 < 0.99 then mapping.confidence + 0.05 else 0.99)
            else if d.code == Unknown then 0.30
            else mapping.confidence
    ensures d.action == SuggestRetry <==> mapping.code == NetworkTimeout && snapshot.state == Healthy
    ensures d.action == SuggestSwitch <==> d.code == IssuerOutage && (snapshot.state != Healthy)
    ensures d.action == SuggestSmartSchedule <==> mapping.code == InsufficientFunds && features.recurring
    ensures d.action == SuggestNudge <==>
              (mapping.code == InsufficientFunds && !features.recurring) || mapping.code == CardExpired ||
              mapping.code == CustomerAbandoned
  {
    var code, confidence, action := mapping.code, mapping.confidence, SuggestNothing;
    var tokens, cause := [RuleMatched(mapping.rule)], Classified(code);
    var unhealthy := snapshot.state == Degraded || snapshot.state == Down;
    if unhealthy {
      tokens := tokens + [RailIs(snapshot.state), RailRate(snapshot.successRate5m)];
      if code == NetworkTimeout || code == Unknown || code == IssuerOutage {
        code := IssuerOutage;
        confidence := if confidence < 0.95 then 0.95 else confidence;
        cause := IssuerDegraded(features.railId);
        tokens := tokens + [OutageCorroborated];
        action := SuggestSwitch;
      } else if mapping.retryableOnAlternative {
        action := SuggestSwitch;
      }
    }
    if code == InsufficientFunds {
      if features.prePayday {
        confidence := if confidence + 0.05 < 0.99 then confidence + 0.05 else 0.99;
        tokens := tokens + [PrePaydayPressure];
        cause := FundsBeforePayday;
      } else if features.postPayday {
        tokens := tokens + [PostPaydayDepletion];
      }
      action := if features.recurring then SuggestSmartSchedule else SuggestNudge;
    } else if code == NetworkTimeout {
      if !unhealthy {
        tokens := tokens + [TransientTimeout];
        cause := GlitchOnHealthyRail;
        action := SuggestRetry;
      } else {
        action := SuggestSwitch;
      }
    } else if code == MandateInvalid {
      tokens, cause := tokens + [MandateTerminated], MandateRevoked;
      action := SuggestNothing;
    } else if code == CardExpired {
      tokens, cause := tokens + [InstrumentExpired], CardPastValidity;
      action := SuggestNudge;
    } else if code == CustomerAbandoned {
      tokens, cause := tokens + [CustomerChurn], LeftByCustomer;
      action := SuggestNudge;
    } else if code == RiskDecline {
      tokens, cause := tokens + [RiskBlock], DeclinedAsRisk;
      action := SuggestNothing;
    } else if code == Unknown {
      if unhealthy {
        // Not reached: an unknown failure on an unhealthy rail was put down to the issuer above.
        code, confidence, cause, action := IssuerOutage, 0.85, Ambiguous, SuggestSwitch;
      } else {
        confidence, cause, action := 0.30, Ambiguous, SuggestNothing;
      }
    }
    d := Diagnosis(code, confidence, cause, features.railId, snapshot.state, tokens, action, now);
  }

  // ---- recoverability --------------------------------------------------------------------

  datatype RecoveryAction = RetryImmediate | RetryScheduled | SwitchRail | CustomerNudge | NoAction

  /** Percent chance of recovery. */
  function Percent(action: RecoveryAction, code: TaxonomyCode, state: Health, prePayday: bool): nat {
    match action
    case NoAction => 0
    case RetryImmediate =>
      if code == NetworkTimeout && state == Healthy then 82
      else if code == IssuerOutage || state == Down then 5
      else if code == InsufficientFunds then 2
      else if code == MandateInvalid || code == CardExpired then 0
      else if code == CustomerAbandoned then 10
      else 15
    case RetryScheduled =>
      if code == InsufficientFunds then (if prePayday then 78 else 52)
      else if code == IssuerOutage then 75
      else if code == NetworkTimeout then 80
      else if code == MandateInvalid || code == CardExpired then 0
      else 35
    case SwitchRail =>
      if code == IssuerOutage || code == NetworkTimeout then 85
      else if code == InsufficientFunds then 8
      else if code == MandateInvalid then 0
      else if code == CardExpired then 72
      else 30
    case CustomerNudge =>
      if code == CustomerAbandoned then 68
      else if code == CardExpired then 62
      else if code == InsufficientFunds then 58
      else if code == IssuerOutage || code == NetworkTimeout then 35
      else if code == RiskDecline then 0
      else 40
  }

  // ---- expected value -----------------------------------------------------------------------

  /** Python's `int` truncates towards zero. */
  function Gross(percent: nat, amount: int): int {
    if amount >= 0 then percent * amount / 100 else -(percent * (0 - amount) / 100)
  }

  function Cost(action: RecoveryAction, amount: int): nat {
    match action
    case RetryImmediate => 50
    case RetryScheduled => 70
    case SwitchRail => 75
    case CustomerNudge => if amount >= 50000 then 200 else 170
    case NoAction => 0
  }

  function Net(action: RecoveryAction, code: TaxonomyCode, state: Health, prePayday: bool, amount: int): int {
    if action == NoAction then 0 else Gross(Percent(action, code, state, prePayday), amount) - Cost(action, amount)
  }

  datatype Valuation = Valuation(action: RecoveryAction, percent: nat, gross: int, cost: nat, net: int)

  function Candidates(switchable: bool): seq<RecoveryAction> {
    [RetryImmediate, RetryScheduled] + (if switchable then [SwitchRail] else []) + [CustomerNudge, NoAction]
  }

  datatype Channel = Whatsapp | Sms

  datatype Reason =
    | NoHealthyAlternative
    | NothingPays
    | GreatestNet(net: int)
    | TargetRail(railId: string)
    | PaydayAnchored(days: int)
    | OutageDelay
    | DefaultDelay
    | NudgeOver(channel: Channel)

  datatype Decision = Decision(action: RecoveryAction, percent: nat, net: int, valuations: seq<Valuation>,
                               targetRail: Option<string>, delaySeconds: Option<int>, channel: Option<Channel>,
                               reasons: seq<Reason>)

  // ---- choosing ---------------------------------------------------------------------------------

  predicate Eligible(rail: Snapshot, failed: string) {
    rail.railId != failed && rail.state == Healthy
  }

  /** The first of the eligible rails with the greatest five-minute success rate. */
  ghost predicate IsBestRail(rails: seq<Snapshot>, failed: string, i: nat) {
    && i < |rails| && Eligible(rails[i], failed)
    && (forall j :: 0 <= j < |rails| && Eligible(rails[j], failed) ==> rails[j].successRate5m <= rails[i].successRate5m)
    && (forall j :: 0 <= j < i && Eligible(rails[j], failed) ==> rails[j].successRate5m < rails[i].successRate5m)
  }

  method BestAlternativeRail(rails: seq<Snapshot>, failed: string) returns (best: Option<Snapshot>)
    ensures best.None? <==> forall rail :: rail in rails ==> rail.railId == failed || rail.state != Healthy
    ensures best.Some? ==> best.value.railId != failed && best.value.state == Healthy
    ensures best.Some? ==> exists i: nat :: IsBestRail(rails, failed, i) && rails[i] == best.value
  {
    best := None;
    ghost var at := 0;
    for k := 0 to |rails|
      invariant best.None? <==> forall j :: 0 <= j < k ==> !Eligible(rails[j], failed)
      invariant best.Some? ==> at < k && rails[at] == best.value && IsBestRail(rails[..k], failed, at)
    {
      if Eligible(rails[k], failed) {
        if best.None? || rails[k].successRate5m > best.value.successRate5m {
          best := Some(rails[k]);
          at := k;
        }
      }
    }
    assert rails[..|rails|] == rails;
    assert forall rail :: rail in rails ==> exists j :: 0 <= j < |rails| && rails[j] == rail;
  }

  /** What `max` returns: the first of the greatest. */
  function FirstBest(vs: seq<Valuation>): (k: nat)
    requires vs != []
    ensures k < |vs| && (forall j :: 0 <= j < |vs| ==> vs[j].net <= vs[k].net) &&
            (forall j :: 0 <= j < k ==> vs[j].net < vs[k].net)
  {
    if |vs| == 1 then 0
    else
      var k := FirstBest(vs[..|vs| - 1]);
      if vs[|vs| - 1].net > vs[k].net then |vs| - 1 else k
  }

  function Valued(action: RecoveryAction, code: TaxonomyCode, state: Health, prePayday: bool, amount: int): Valuation {
    var percent := Percent(action, code, state, prePayday);
    Valuation(action, percent, Gross(percent, amount), Cost(action, amount),
              Net(action, code, state, prePayday, amount))
  }

  function Valuations(code: TaxonomyCode, state: Health, prePayday: bool, switchable: bool, amount: int)
    : (vs: seq<Valuation>)
    ensures |vs| == |Candidates(switchable)|
  {
    var actions := Candidates(switchable);
    seq(|actions|, i requires 0 <= i < |actions| => Valued(actions[i], code, state, prePayday, amount))
  }

  function Chosen(code: TaxonomyCode, state: Health, prePayday: bool, switchable: bool, amount: int): RecoveryAction {
    var vs := Valuations(code, state, prePayday, switchable, amount);
    var best := vs[FirstBest(vs)];
    if best.net <= 0 || code == MandateInvalid then NoAction else best.action
  }

  predicate Switchable(rails: seq<Snapshot>, failed: string) {
    exists j :: 0 <= j < |rails| && Eligible(rails[j], failed)
  }

  /** The best action, at its own net value, or none at zero. */
  ghost predicate PicksBest(d: Decision, features: Features, state: Health, code: TaxonomyCode, switchable: bool) {
    && d.valuations == Valuations(code, state, features.prePayday, switchable, features.amountPaise)
    && d.action == Chosen(code, state, features.prePayday, switchable, features.amountPaise)
    && (if d.action == NoAction then d.net == 0 && d.percent == 0
        else d.net == Net(d.action, code, state, features.prePayday, features.amountPaise) > 0)
  }

  /** Each action carries the parameter it needs, and no other. */
  ghost predicate Parameters(d: Decision, features: Features, code: TaxonomyCode, rails: seq<Snapshot>) {
    && (d.targetRail.Some? <==> d.action == SwitchRail)
    && (d.action == SwitchRail ==>
        exists i: nat :: IsBestRail(rails, features.railId, i) && d.targetRail == Some(rails[i].railId))
    && d.delaySeconds ==
       (if d.action != RetryScheduled then None
        else if code == InsufficientFunds && features.prePayday then
          Some(86400 * if features.dayOfMonth < 27 then 28 - features.dayOfMonth else 1)
        else if code == IssuerOutage then Some(1800)
        else Some(300))
    && d.channel ==
       if d.action != CustomerNudge then None else Some(if features.amountPaise >= 50000 then Whatsapp else Sms)
  }

  /** The reasons given: whether there is no rail to switch to, what the action is worth, and its parameter. */
  ghost predicate Gives(d: Decision, features: Features, code: TaxonomyCode, switchable: bool) {
    d.reasons ==
      (if switchable then [] else [NoHealthyAlternative])
      + [if d.action == NoAction then NothingPays else GreatestNet(d.net)]
      + (match d.action
         case SwitchRail => if d.targetRail.Some? then [TargetRail(d.targetRail.value)] else []
         case RetryScheduled =>
           if code == InsufficientFunds && features.prePayday then
             [PaydayAnchored(if features.dayOfMonth < 27 then 28 - features.dayOfMonth else 1)]
           else if code == IssuerOutage then [OutageDelay]
           else [DefaultDelay]
         case CustomerNudge => [NudgeOver(if features.amountPaise >= 50000 then Whatsapp else Sms)]
         case _ => [])
  }

  method EvaluateActions(features: Features, snapshot: Snapshot, code: TaxonomyCode, rails: seq<Snapshot>)
    returns (decision: Result<Decision, string>)
    ensures decision.Ok?
    ensures PicksBest(decision.value, features, snapshot.state, code, Switchable(rails, features.railId))
    ensures Parameters(decision.value, features, code, rails)
    ensures Gives(decision.value, features, code, Switchable(rails, features.railId))
  {
    hide Percent, Gross, Cost, FirstBest, IsBestRail, Chosen, Valuations, Net;
    var target := BestAlternativeRail(rails, features.railId);
    var candidates, reasons := [RetryImmediate, RetryScheduled], [];
    if target.Some? {
      candidates := candidates + [SwitchRail];
    } else {
      reasons := [NoHealthyAlternative];
    }
    candidates := candidates + [CustomerNudge, NoAction];
    ghost var switchable := Switchable(rails, features.railId);
    assert candidates == Candidates(switchable);
    var amount := features.amountPaise;
    var valuations := Evaluate(candidates, code, snapshot.state, features.prePayday, amount);
    var best := valuations[FirstBest(valuations)];
    var chosen, percent, net := NoAction, 0, 0;
    if !(best.net <= 0 || code == MandateInvalid) {
      chosen, percent, net := best.action, best.percent, best.net;
      reasons := reasons + [GreatestNet(net)];
    } else {
      reasons := reasons + [NothingPays];
    }
    BestIsChosen(valuations, code, snapshot.state, features.prePayday, switchable, amount);
    var targetRail, delay, channel := None, None, None;
    if chosen == SwitchRail {
      if target.None? {
        return Err("SWITCH_RAIL was selected with no healthy alternative rail");
      }
      targetRail := Some(target.value.railId);
      reasons := reasons + [TargetRail(target.value.railId)];
    } else if chosen == RetryScheduled {
      if code == InsufficientFunds && features.prePayday {
        var days := if 28 - features.dayOfMonth < 1 then 1 else 28 - features.dayOfMonth;
        delay := Some(days * 86400);
        reasons := reasons + [PaydayAnchored(days)];
      } else if code == IssuerOutage {
        delay := Some(1800);
        reasons := reasons + [OutageDelay];
      } else {
        delay := Some(300);
        reasons := reasons + [DefaultDelay];
      }
    } else if chosen == CustomerNudge {
      channel := Some(if amount >= 50000 then Whatsapp else Sms);
      reasons := reasons + [NudgeOver(channel.value)];
    }
    decision := Ok(Decision(chosen, percent, net, valuations, targetRail, delay, channel, reasons));
  }

  method Evaluate(candidates: seq<RecoveryAction>, code: TaxonomyCode, state: Health, prePayday: bool, amount: int)
    returns (valuations: seq<Valuation>)
    ensures |valuations| == |candidates|
    ensures forall k :: 0 <= k < |candidates| ==> valuations[k] == Valued(candidates[k], code, state, prePayday, amount)
  {
    hide Percent, Gross, Cost;
    valuations := [];
    for i := 0 to |candidates|
      invariant |valuations| == i
      invariant forall k :: 0 <= k < i ==> valuations[k] == Valued(candidates[k], code, state, prePayday, amount)
    {
      var action := candidates[i];
      var percent := Percent(action, code, state, prePayday);
      var gross, cost := Gross(percent, amount), Cost(action, amount);
      var net := if action != NoAction then gross - cost else 0;
      valuations := valuations + [Valuation(action, percent, gross, cost, net)];
    }
  }

  lemma {:induction false} BestIsChosen(vs: seq<Valuation>, code: TaxonomyCode, state: Health, prePayday: bool,
                                        switchable: bool, amount: int)
    requires |vs| == |Candidates(switchable)|
    requires forall k :: 0 <= k < |vs| ==> vs[k] == Valued(Candidates(switchable)[k], code, state, prePayday, amount)
    ensures vs == Valuations(code, state, prePayday, switchable, amount)
    ensures var best := vs[FirstBest(vs)];
            && Chosen(code, state, prePayday, switchable, amount) ==
                (if best.net <= 0 || code == MandateInvalid then NoAction else best.action)
            && best.net == Net(best.action, code, state, prePayday, amount)
            && (best.net > 0 ==> best.action != NoAction)
            && (best.action == SwitchRail ==> switchable)
  {
    hide Percent, Gross, Cost;
    assert vs == Valuations(code, state, prePayday, switchable, amount);
    var k := FirstBest(vs);
    assert vs[k] == Valued(Candidates(switchable)[k], code, state, prePayday, amount);
  }

  // ---- what the choice comes to -----------------------------------------------------------

  /** The chosen action pays, nothing pays more, and nothing earlier pays as much; no action is chosen exactly
      when nothing pays or the mandate is dead. */
  lemma {:induction false} ChoiceIsFirstMaximum(code: TaxonomyCode, state: Health, prePayday: bool, switchable: bool,
                                                amount: int, k: nat)
    requires k < |Candidates(switchable)|
    ensures var actions := Candidates(switchable);
            var chosen := Chosen(code, state, prePayday, switchable, amount);
            && (chosen == NoAction <==>
                  code == MandateInvalid || forall j :: 0 <= j < |actions| ==>
                        Net(actions[j], code, state, prePayday, amount) <= 0)
            && (chosen != NoAction ==>
                  (chosen == actions[k] <==>
                     && (forall j :: 0 <= j < |actions| ==>
                           Net(actions[j], code, state, prePayday, amount) <=
                               Net(actions[k], code, state, prePayday, amount))
                     && (forall j :: 0 <= j < k ==>
                           Net(actions[j], code, state, prePayday, amount) <
                               Net(actions[k], code, state, prePayday, amount))))
  {
    hide Percent, Gross, Cost, Net, Valuations, FirstBest;
    var actions, vs := Candidates(switchable), Valuations(code, state, prePayday, switchable, amount);
    ValuationsAre(code, state, prePayday, switchable, amount);
    CandidatesDiffer(switchable);
    DoingNothingIsFree(code, state, prePayday, amount);
    hide Candidates;
    FirstOfGreatest(vs, k);
    var best := FirstBest(vs);
    assert vs[best].net == Net(actions[best], code, state, prePayday, amount) && vs[best].action == actions[best];
    assert vs[k].net == Net(actions[k], code, state, prePayday, amount);
    if forall j :: 0 <= j < |actions| ==> Net(actions[j], code, state, prePayday, amount) <= 0 {
      assert vs[best].net <= 0;
    } else {
      var j :| 0 <= j < |actions| && Net(actions[j], code, state, prePayday, amount) > 0;
      assert vs[j].net <= vs[best].net;
    }
    NetsInOrder(vs, actions, code, state, prePayday, amount, k);
  }

  /** The first of the greatest is the place that nothing exceeds and nothing before it equals. */
  lemma FirstOfGreatest(vs: seq<Valuation>, k: nat)
    requires k < |vs|
    ensures k == FirstBest(vs) <==>
            (forall j :: 0 <= j < |vs| ==> vs[j].net <= vs[k].net) && (forall j :: 0 <= j < k ==> vs[j].net < vs[k].net)
  {
    var best := FirstBest(vs);
    assert vs[best].net >= vs[k].net;
  }

  lemma NetsInOrder(vs: seq<Valuation>, actions: seq<RecoveryAction>, code: TaxonomyCode, state: Health,
                    prePayday: bool, amount: int, k: nat)
    requires |vs| == |actions| && k < |vs|
    requires forall j :: 0 <= j < |vs| ==> vs[j].net == Net(actions[j], code, state, prePayday, amount)
    ensures (forall j :: 0 <= j < |vs| ==> vs[j].net <= vs[k].net) <==>
            forall j :: 0 <= j < |actions| ==>
              Net(actions[j], code, state, prePayday, amount) <= Net(actions[k], code, state, prePayday, amount)
    ensures (forall j :: 0 <= j < k ==> vs[j].net < vs[k].net) <==>
            forall j :: 0 <= j < k ==>
              Net(actions[j], code, state, prePayday, amount) < Net(actions[k], code, state, prePayday, amount)
  {
    hide Net;
    if forall j :: 0 <= j < |actions| ==>
         Net(actions[j], code, state, prePayday, amount) <= Net(actions[k], code, state, prePayday, amount) {
      forall j | 0 <= j < |vs| ensures vs[j].net <= vs[k].net {
        assert Net(actions[j], code, state, prePayday, amount) <= Net(actions[k], code, state, prePayday, amount);
      }
    }
    if forall j :: 0 <= j < k ==>
         Net(actions[j], code, state, prePayday, amount) < Net(actions[k], code, state, prePayday, amount) {
      forall j | 0 <= j < k ensures vs[j].net < vs[k].net {
        assert Net(actions[j], code, state, prePayday, amount) < Net(actions[k], code, state, prePayday, amount);
      }
    }
  }

  lemma ValuationsAre(code: TaxonomyCode, state: Health, prePayday: bool, switchable: bool, amount: int)
    ensures var actions, vs := Candidates(switchable), Valuations(code, state, prePayday, switchable, amount);
            |vs| == |actions| && forall j :: 0 <= j < |vs| ==>
              vs[j].net == Net(actions[j], code, state, prePayday, amount) && vs[j].action == actions[j]
  {
    hide Percent, Gross, Cost, Net;
  }

  lemma CandidatesDiffer(switchable: bool)
    ensures var actions := Candidates(switchable);
            forall i, j :: 0 <= i < j < |actions| ==> actions[i] != actions[j]
  {
  }

  /** An immediate retry is chosen for a timeout on a healthy rail and for nothing else; then for every amount
      that repays it, unless a switch of rail is worth more by its extra three percent. */
  lemma {:induction false} ImmediateIff(code: TaxonomyCode, state: Health, prePayday: bool, switchable: bool,
                                        amount: int)
    ensures Chosen(code, state, prePayday, switchable, amount) == RetryImmediate <==>
              && code == NetworkTimeout && state == Healthy && amount >= 63
              && (switchable ==> 85 * amount / 100 - 82 * amount / 100 <= 25)
  {
    hide Chosen, Valuations, Net;
    var actions := Candidates(switchable);
    ListCandidates();
    ChoiceIsFirstMaximum(code, state, prePayday, switchable, amount, 0);
    if code == NetworkTimeout && state == Healthy {
      TimeoutNets(prePayday, amount);
      DoingNothingIsFree(code, state, prePayday, amount);
      if switchable {
        assert actions[2] == SwitchRail;
      }
    } else {
      NotWorthRetryingNow(code, state, prePayday, amount);
      assert actions[0] == RetryImmediate && actions[1] == RetryScheduled && actions[|actions| - 2] == CustomerNudge;
    }
  }

  lemma ListCandidates()
    ensures Candidates(true) == [RetryImmediate, RetryScheduled, SwitchRail, CustomerNudge, NoAction]
    ensures Candidates(false) == [RetryImmediate, RetryScheduled, CustomerNudge, NoAction]
  {
  }

  lemma DoingNothingIsFree(code: TaxonomyCode, state: Health, prePayday: bool, amount: int)
    ensures Net(NoAction, code, state, prePayday, amount) == 0
    ensures Valued(NoAction, code, state, prePayday, amount) == Valuation(NoAction, 0, 0, 0, 0)
  {
  }

  lemma TimeoutNets(prePayday: bool, amount: int)
    ensures Net(RetryImmediate, NetworkTimeout, Healthy, prePayday, amount) > 0 <==> amount >= 63
    ensures amount >= 63 ==>
              && Net(RetryScheduled, NetworkTimeout, Healthy, prePayday, amount) <
                  Net(RetryImmediate, NetworkTimeout, Healthy, prePayday, amount)
              && Net(CustomerNudge, NetworkTimeout, Healthy, prePayday, amount) <
                  Net(RetryImmediate, NetworkTimeout, Healthy, prePayday, amount)
              && (Net(SwitchRail, NetworkTimeout, Healthy, prePayday, amount) <=
                  Net(RetryImmediate, NetworkTimeout, Healthy, prePayday, amount)
                  <==> 85 * amount / 100 - 82 * amount / 100 <= 25)
  {
  }

  lemma NotWorthRetryingNow(code: TaxonomyCode, state: Health, prePayday: bool, amount: int)
    requires !(code == NetworkTimeout && state == Healthy)
    ensures var now := Net(RetryImmediate, code, state, prePayday, amount);
            || now <= 0
            || now < Net(RetryScheduled, code, state, prePayday, amount)
            || now < Net(CustomerNudge, code, state, prePayday, amount)
            || code == MandateInvalid
  {
  }

  /** End to end, whatever the signal was mapped to. */
  lemma {:induction false} EndToEndImmediateIff(mapped: TaxonomyCode, state: Health, prePayday: bool, switchable: bool,
                                                amount: int)
    ensures Chosen(DiagnosedCode(mapped, state), state, prePayday, switchable, amount) == RetryImmediate <==>
              && mapped == NetworkTimeout && state == Healthy && amount >= 63
              && (switchable ==> 85 * amount / 100 - 82 * amount / 100 <= 25)
  {
    hide Chosen;
    ImmediateIff(DiagnosedCode(mapped, state), state, prePayday, switchable, amount);
  }

  /** During a corroborated outage every payment of ninety paise or more moves to a healthy rail if there is one,
      and waits for the issuer if there is none. */
  lemma {:induction false} OutageResponse(mapped: TaxonomyCode, state: Health, prePayday: bool, amount: int)
    requires state != Healthy && (mapped == NetworkTimeout || mapped == Unknown || mapped == IssuerOutage)
    ensures Chosen(DiagnosedCode(mapped, state), state, prePayday, true, amount) == SwitchRail <==> amount >= 90
    ensures Chosen(DiagnosedCode(mapped, state), state, prePayday, false, amount) == RetryScheduled <==> amount >= 95
  {
    hide Chosen, Valuations, Net;
    ListCandidates();
    ChoiceIsFirstMaximum(IssuerOutage, state, prePayday, true, amount, 2);
    ChoiceIsFirstMaximum(IssuerOutage, state, prePayday, false, amount, 1);
    OutageNets(state, prePayday, amount);
    DoingNothingIsFree(IssuerOutage, state, prePayday, amount);
    var moving, staying := Candidates(true), Candidates(false);
    assert moving[2] == SwitchRail && staying[1] == RetryScheduled;
  }

  lemma OutageNets(state: Health, prePayday: bool, amount: int)
    ensures var now := Net(RetryImmediate, IssuerOutage, state, prePayday, amount);
            var later := Net(RetryScheduled, IssuerOutage, state, prePayday, amount);
            var move := Net(SwitchRail, IssuerOutage, state, prePayday, amount);
            var nudge := Net(CustomerNudge, IssuerOutage, state, prePayday, amount);
            && (move > 0 <==> amount >= 90) && (later > 0 <==> amount >= 95)
            && (amount >= 90 ==> now < move && later < move && nudge < move)
            && (amount >= 95 ==> now < later && nudge < later)
  {
  }

  // ---- the whole policy, as a table ------------------------------------------------------------

  /** The least amount from which an action pays for itself, if there is one. */
  function PaysFrom(action: RecoveryAction, code: TaxonomyCode, state: Health, prePayday: bool): Option<int> {
    match action
    case NoAction => None
    case RetryImmediate =>
      if code == NetworkTimeout && state == Healthy then Some(63)
      else if code == IssuerOutage || state == Down then Some(1020)
      else
        (match code
         case InsufficientFunds => Some(2550)
         case MandateInvalid | CardExpired => None
         case CustomerAbandoned => Some(510)
         case _ => Some(340))
    case RetryScheduled =>
      (match code
       case InsufficientFunds => Some(if prePayday then 92 else 137)
       case IssuerOutage => Some(95)
       case NetworkTimeout => Some(89)
       case MandateInvalid | CardExpired => None
       case _ => Some(203))
    case SwitchRail =>
      (match code
       case IssuerOutage | NetworkTimeout => Some(90)
       case InsufficientFunds => Some(950)
       case MandateInvalid => None
       case CardExpired => Some(106)
       case _ => Some(254))
    case CustomerNudge =>
      (match code
       case CustomerAbandoned => Some(252)
       case CardExpired => Some(276)
       case InsufficientFunds => Some(295)
       case IssuerOutage | NetworkTimeout => Some(489)
       case RiskDecline => None
       case _ => Some(428))
  }

  lemma PaysFromThere(action: RecoveryAction, code: TaxonomyCode, state: Health, prePayday: bool, amount: int)
    ensures Net(action, code, state, prePayday, amount) > 0 <==>
            PaysFrom(action, code, state, prePayday).Some? && amount >= PaysFrom(action, code, state, prePayday).value
  {
  }

  /** How much more of an amount one chance is worth than another. */
  function Ahead(percent: nat, other: nat, amount: int): int {
    Gross(percent, amount) - Gross(other, amount)
  }

  /** What is done about each failure, by the amount. */
  function Advice(code: TaxonomyCode, state: Health, prePayday: bool, switchable: bool, amount: int): RecoveryAction {
    match code
    case MandateInvalid => NoAction
    case RiskDecline => if amount >= 203 then RetryScheduled else NoAction
    case CardExpired =>
      if switchable then (if amount >= 106 then SwitchRail else NoAction)
      else if amount >= 276 then CustomerNudge else NoAction
    case CustomerAbandoned =>
      if amount < 203 then NoAction else if Ahead(68, 35, amount) > 100 then CustomerNudge else RetryScheduled
    case Unknown =>
      if amount < 203 then NoAction else if Ahead(40, 35, amount) > 100 then CustomerNudge else RetryScheduled
    case InsufficientFunds =>
      if prePayday then (if amount >= 92 then RetryScheduled else NoAction)
      else if amount < 137 then NoAction
      else if Ahead(58, 52, amount) > 100 then CustomerNudge else RetryScheduled
    case IssuerOutage =>
      if switchable then (if amount >= 90 then SwitchRail else NoAction)
      else if amount >= 95 then RetryScheduled else NoAction
    case NetworkTimeout =>
      if state == Healthy then
        (if amount < 63 then NoAction else if switchable &&
         Ahead(85, 82, amount) > 25 then SwitchRail else RetryImmediate)
      else if amount < 89 then NoAction
      else if switchable && Ahead(85, 80, amount) > 5 then SwitchRail else RetryScheduled
  }

  /** The choice is the table's, for every code, state, salary cycle, set of rails and amount. */
  lemma {:induction false} ChoiceIsAdvice(code: TaxonomyCode, state: Health, prePayday: bool, switchable: bool,
                                          amount: int)
    ensures Chosen(code, state, prePayday, switchable, amount) == Advice(code, state, prePayday, switchable, amount)
  {
    hide Chosen, Valuations, Net, Advice;
    ListCandidates();
    var advice := Advice(code, state, prePayday, switchable, amount);
    DoingNothingIsFree(code, state, prePayday, amount);
    if advice == NoAction {
      NothingPaysThen(code, state, prePayday, switchable, amount);
      ChoiceIsFirstMaximum(code, state, prePayday, switchable, amount, 0);
    } else {
      AdviceIsBest(code, state, prePayday, switchable, amount);
      BestIsFirst(advice, code, state, prePayday, switchable, amount);
    }
  }

  lemma {:induction false} BestIsFirst(action: RecoveryAction, code: TaxonomyCode, state: Health, prePayday: bool,
                                       switchable: bool, amount: int)
    requires code != MandateInvalid && action != NoAction && Best(action, code, state, prePayday, switchable, amount)
    ensures Chosen(code, state, prePayday, switchable, amount) == action
  {
    hide Chosen, Net;
    ListCandidates();
    DoingNothingIsFree(code, state, prePayday, amount);
    var actions, k := Candidates(switchable), PlaceIn(action, switchable);
    assert actions[k] == action;
    ChoiceIsFirstMaximum(code, state, prePayday, switchable, amount, k);
    forall j | 0 <= j < |actions|
      ensures Net(actions[j], code, state, prePayday, amount) <= Net(action, code, state, prePayday, amount)
      ensures j < k ==> Net(actions[j], code, state, prePayday, amount) < Net(action, code, state, prePayday, amount)
    {
    }
  }

  function PlaceIn(action: RecoveryAction, switchable: bool): nat {
    match action
    case RetryImmediate => 0
    case RetryScheduled => 1
    case SwitchRail => 2
    case CustomerNudge => if switchable then 3 else 2
    case NoAction => if switchable then 4 else 3
  }

  lemma NothingPaysThen(code: TaxonomyCode, state: Health, prePayday: bool, switchable: bool, amount: int)
    requires Advice(code, state, prePayday, switchable, amount) == NoAction
    ensures code != MandateInvalid ==>
              && Net(RetryImmediate, code, state, prePayday, amount) <= 0
              && Net(RetryScheduled, code, state, prePayday, amount) <= 0
              && (switchable ==> Net(SwitchRail, code, state, prePayday, amount) <= 0)
              && Net(CustomerNudge, code, state, prePayday, amount) <= 0
  {
    hide Net;
    PaysFromThere(RetryImmediate, code, state, prePayday, amount);
    PaysFromThere(RetryScheduled, code, state, prePayday, amount);
    PaysFromThere(SwitchRail, code, state, prePayday, amount);
    PaysFromThere(CustomerNudge, code, state, prePayday, amount);
  }

  /** The action pays, none pays more, and none that comes earlier as much. */
  predicate Best(action: RecoveryAction, code: TaxonomyCode, state: Health, prePayday: bool, switchable: bool,
                 amount: int)
  {
    var net := Net(action, code, state, prePayday, amount);
    && net > 0 && (action == SwitchRail ==> switchable)
    && (action != RetryImmediate ==> Net(RetryImmediate, code, state, prePayday, amount) < net)
    && Net(RetryScheduled, code, state, prePayday, amount) <= net
    && (action == SwitchRail || action == CustomerNudge ==>
          Net(RetryScheduled, code, state, prePayday, amount) < net)
    && (switchable ==> Net(SwitchRail, code, state, prePayday, amount) <= net)
    && (switchable && action == CustomerNudge ==> Net(SwitchRail, code, state, prePayday, amount) < net)
    && Net(CustomerNudge, code, state, prePayday, amount) <= net
  }

  lemma AdviceIsBest(code: TaxonomyCode, state: Health, prePayday: bool, switchable: bool, amount: int)
    requires Advice(code, state, prePayday, switchable, amount) != NoAction
    ensures code != MandateInvalid
    ensures Best(Advice(code, state, prePayday, switchable, amount), code, state, prePayday, switchable, amount)
  {
    hide Best;
    match code
    case InsufficientFunds => BestForFunds(state, prePayday, switchable, amount);
    case IssuerOutage => BestForOutage(state, prePayday, switchable, amount);
    case NetworkTimeout => BestForTimeout(state, prePayday, switchable, amount);
    case CardExpired => BestForCard(state, prePayday, switchable, amount);
    case RiskDecline => BestForRisk(state, prePayday, switchable, amount);
    case CustomerAbandoned => BestForAbandoned(state, prePayday, switchable, amount);
    case Unknown => BestForUnknown(state, prePayday, switchable, amount);
  }

  lemma Superadditive(percent: nat, more: nat, amount: int)
    ensures amount >= 0 ==> Gross(percent + more, amount) >= Gross(percent, amount) + Gross(more, amount)
  {
    assert (percent + more) * amount == percent * amount + more * amount;
  }

  lemma GrossFrom(percent: nat, least: nat, amount: int, gross: int)
    requires gross <= percent * least / 100 && amount >= least
    ensures Gross(percent, amount) >= gross
  {
    GrossIsMonotone(percent, least, amount);
  }

  lemma NothingEarned(amount: int)
    ensures Gross(0, amount) == 0
  {
  }

  lemma LargeNudge(percent: nat, amount: int)
    requires percent >= 40 && amount >= 50000
    ensures Gross(percent, amount) >= 20000
  {
    GrossIsMonotone(percent, 50000, amount);
    assert percent * 50000 / 100 == percent * 500;
  }

  lemma FarAhead(percent: nat, other: nat, amount: int)
    requires percent >= other + 5
    ensures amount >= 50000 ==> Ahead(percent, other, amount) > 130
  {
    if amount >= 50000 {
      Superadditive(other, percent - other, amount);
      GrossIsMonotone(percent - other, 50000, amount);
      assert (percent - other) * 50000 / 100 == (percent - other) * 500;
    }
  }

  lemma BestForFunds(state: Health, prePayday: bool, switchable: bool, amount: int)
    requires Advice(InsufficientFunds, state, prePayday, switchable, amount) != NoAction
    ensures Best(Advice(InsufficientFunds, state, prePayday, switchable, amount), InsufficientFunds, state, prePayday,
                 switchable, amount)
  {
    if !prePayday {
      BestForFundsLater(state, switchable, amount);
    }
  }

  lemma BestForFundsLater(state: Health, switchable: bool, amount: int)
    requires amount >= 137
    ensures Best(Advice(InsufficientFunds, state, false, switchable, amount), InsufficientFunds, state, false,
                 switchable, amount)
  {
    hide Gross;
    GrossFrom(52, 137, amount, 71);
    Superadditive(2, 50, amount);
    GrossFrom(50, 137, amount, 68);
    Superadditive(5, 47, amount);
    GrossFrom(47, 137, amount, 64);
    Superadditive(8, 44, amount);
    GrossFrom(44, 0, amount, 0);
    FarAhead(58, 52, amount);
  }

  lemma BestForOutage(state: Health, prePayday: bool, switchable: bool, amount: int)
    requires Advice(IssuerOutage, state, prePayday, switchable, amount) != NoAction
    ensures Best(Advice(IssuerOutage, state, prePayday, switchable, amount), IssuerOutage, state, prePayday,
                 switchable, amount)
  {
    hide Gross;
    if amount >= 90 {
      GrossFrom(85, 90, amount, 76);
      Superadditive(75, 10, amount);
      GrossFrom(10, 90, amount, 9);
      Superadditive(5, 70, amount);
      GrossFrom(70, 90, amount, 63);
      Superadditive(35, 40, amount);
      GrossFrom(40, 90, amount, 36);
      Superadditive(5, 80, amount);
      GrossFrom(80, 90, amount, 72);
      Superadditive(35, 50, amount);
      GrossFrom(50, 90, amount, 45);
    }
    if amount >= 95 {
      GrossFrom(75, 95, amount, 71);
    }
  }

  lemma BestForTimeout(state: Health, prePayday: bool, switchable: bool, amount: int)
    requires Advice(NetworkTimeout, state, prePayday, switchable, amount) != NoAction
    ensures Best(Advice(NetworkTimeout, state, prePayday, switchable, amount), NetworkTimeout, state, prePayday,
                 switchable, amount)
  {
    hide Gross;
    if amount >= 63 {
      GrossFrom(82, 63, amount, 51);
      Superadditive(80, 2, amount);
      Superadditive(35, 45, amount);
      GrossFrom(45, 0, amount, 0);
      GrossFrom(2, 0, amount, 0);
    }
    if amount >= 89 {
      GrossFrom(80, 89, amount, 71);
      Superadditive(15, 65, amount);
      Superadditive(5, 75, amount);
      GrossFrom(65, 89, amount, 57);
      GrossFrom(75, 89, amount, 66);
    }
  }

  lemma BestForCard(state: Health, prePayday: bool, switchable: bool, amount: int)
    requires Advice(CardExpired, state, prePayday, switchable, amount) != NoAction
    ensures Best(Advice(CardExpired, state, prePayday, switchable, amount), CardExpired, state, prePayday, switchable,
                 amount)
  {
    hide Gross;
    NothingEarned(amount);
    if switchable {
      GrossFrom(72, 106, amount, 76);
      Superadditive(62, 10, amount);
      GrossFrom(10, 106, amount, 10);
      Superadditive(5, 67, amount);
      GrossFrom(67, 106, amount, 71);
    } else {
      GrossFrom(62, 276, amount, 171);
      Superadditive(5, 57, amount);
      GrossFrom(57, 276, amount, 157);
      if amount >= 50000 {
        LargeNudge(62, amount);
        LargeNudge(57, amount);
      }
    }
  }

  lemma BestForRisk(state: Health, prePayday: bool, switchable: bool, amount: int)
    requires Advice(RiskDecline, state, prePayday, switchable, amount) != NoAction
    ensures Best(Advice(RiskDecline, state, prePayday, switchable, amount), RiskDecline, state, prePayday, switchable,
                 amount)
  {
    hide Gross;
    NothingEarned(amount);
    GrossFrom(35, 203, amount, 71);
    Superadditive(30, 5, amount);
    GrossFrom(5, 203, amount, 10);
    Superadditive(15, 20, amount);
    GrossFrom(20, 203, amount, 40);
    Superadditive(5, 30, amount);
    GrossFrom(30, 203, amount, 60);
  }

  lemma BestForAbandoned(state: Health, prePayday: bool, switchable: bool, amount: int)
    requires Advice(CustomerAbandoned, state, prePayday, switchable, amount) != NoAction
    ensures Best(Advice(CustomerAbandoned, state, prePayday, switchable, amount), CustomerAbandoned, state, prePayday,
                 switchable, amount)
  {
    hide Gross;
    GrossFrom(35, 203, amount, 71);
    Superadditive(15, 20, amount);
    Superadditive(10, 25, amount);
    Superadditive(5, 30, amount);
    GrossFrom(20, 203, amount, 40);
    GrossFrom(25, 203, amount, 50);
    GrossFrom(30, 203, amount, 60);
    GrossFrom(5, 0, amount, 0);
    FarAhead(68, 35, amount);
  }

  lemma BestForUnknown(state: Health, prePayday: bool, switchable: bool, amount: int)
    requires Advice(Unknown, state, prePayday, switchable, amount) != NoAction
    ensures Best(Advice(Unknown, state, prePayday, switchable, amount), Unknown, state, prePayday, switchable, amount)
  {
    hide Gross;
    GrossFrom(35, 203, amount, 71);
    Superadditive(15, 20, amount);
    Superadditive(10, 25, amount);
    Superadditive(5, 30, amount);
    GrossFrom(20, 203, amount, 40);
    GrossFrom(25, 203, amount, 50);
    GrossFrom(30, 203, amount, 60);
    GrossFrom(5, 0, amount, 0);
    FarAhead(40, 35, amount);
  }

  // ---- larger payments -----------------------------------------------------------------------

  function BestNet(code: TaxonomyCode, state: Health, prePayday: bool, switchable: bool, amount: int): int {
    var vs := Valuations(code, state, prePayday, switchable, amount);
    vs[FirstBest(vs)].net
  }

  /** The amounts between which a nudge moves to the dearer channel. */
  predicate Crosses(a: int, b: int) {
    a < 50000 <= b
  }

  lemma GrossIsMonotone(percent: nat, a: int, b: int)
    requires a <= b
    ensures Gross(percent, a) <= Gross(percent, b)
  {
    if 0 <= a {
      assert percent * a <= percent * b;
    } else if b < 0 {
      assert percent * (0 - b) <= percent * (0 - a);
    } else {
      assert percent * (0 - a) >= 0 && percent * b >= 0;
    }
  }

  /** A larger payment is worth at least as much to act on, less the thirty paise by which the dearer channel
      costs more, and that only between amounts that change the channel. */
  lemma {:induction false} LargerIsWorthMore(code: TaxonomyCode, state: Health, prePayday: bool, switchable: bool,
                                             a: int, b: int)
    requires a <= b
    ensures BestNet(code, state, prePayday, switchable, b) >=
            BestNet(code, state, prePayday, switchable, a) - if Crosses(a, b) then 30 else 0
  {
    hide Gross, Percent;
    var actions := Candidates(switchable);
    var va, vb := Valuations(code, state, prePayday, switchable, a), Valuations(code, state, prePayday, switchable, b);
    var k := FirstBest(va);
    GrossIsMonotone(Percent(actions[k], code, state, prePayday), a, b);
    assert va[k] == Valued(actions[k], code, state, prePayday, a);
    assert vb[k] == Valued(actions[k], code, state, prePayday, b);
    assert vb[k].net <= vb[FirstBest(vb)].net;
  }

  /** Where a nudge beats every other action on large amounts. */
  predicate Favoured(code: TaxonomyCode, prePayday: bool, switchable: bool) {
    match code
    case InsufficientFunds => !prePayday
    case CardExpired => !switchable
    case CustomerAbandoned | MandateInvalid | Unknown => true
    case _ => false
  }

  function NudgePercent(code: TaxonomyCode): nat {
    Percent(CustomerNudge, code, Healthy, false)
  }

  lemma NudgePercents(code: TaxonomyCode, state: Health, prePayday: bool, switchable: bool)
    ensures Percent(CustomerNudge, code, state, prePayday) == NudgePercent(code)
    ensures Favoured(code, prePayday, switchable) ==> NudgePercent(code) >= 40
  {
  }

  lemma NudgeWins(code: TaxonomyCode, state: Health, prePayday: bool, switchable: bool, action: RecoveryAction,
                  amount: int)
    requires Favoured(code, prePayday, switchable) && amount >= 49000
    requires action == SwitchRail ==> switchable
    ensures action != CustomerNudge ==>
              Net(action, code, state, prePayday, amount) < Net(CustomerNudge, code, state, prePayday, amount)
  {
  }

  lemma NudgeLoses(code: TaxonomyCode, state: Health, prePayday: bool, switchable: bool, amount: int)
    requires !Favoured(code, prePayday, switchable)
    ensures var nudge := Net(CustomerNudge, code, state, prePayday, amount);
            || nudge < Net(NoAction, code, state, prePayday, amount)
            || nudge < Net(RetryScheduled, code, state, prePayday, amount)
            || (switchable && nudge < Net(SwitchRail, code, state, prePayday, amount))
  {
  }

  function BestAction(code: TaxonomyCode, state: Health, prePayday: bool, switchable: bool,
                      amount: int): RecoveryAction {
    var vs := Valuations(code, state, prePayday, switchable, amount);
    vs[FirstBest(vs)].action
  }

  lemma {:induction false} BestActionIs(code: TaxonomyCode, state: Health, prePayday: bool, switchable: bool,
                                        amount: int)
    ensures var best := BestAction(code, state, prePayday, switchable, amount);
            && best in Candidates(switchable)
            && BestNet(code, state, prePayday, switchable, amount) == Net(best, code, state, prePayday, amount)
    ensures forall action :: action in Candidates(switchable) ==>
              Net(action, code, state, prePayday, amount) <= BestNet(code, state, prePayday, switchable, amount)
  {
    hide Net, Percent, Gross, Cost;
    var actions, vs := Candidates(switchable), Valuations(code, state, prePayday, switchable, amount);
    assert forall j :: 0 <= j < |vs| ==> vs[j] == Valued(actions[j], code, state, prePayday, amount);
    assert vs[FirstBest(vs)] == Valued(actions[FirstBest(vs)], code, state, prePayday, amount);
    forall action | action in actions
      ensures Net(action, code, state, prePayday, amount) <= BestNet(code, state, prePayday, switchable, amount)
    {
      var j :| 0 <= j < |actions| && actions[j] == action;
      assert vs[j].net <= vs[FirstBest(vs)].net;
    }
  }

  lemma {:induction false} NudgeIsBestIff(code: TaxonomyCode, state: Health, prePayday: bool, switchable: bool,
                                          amount: int)
    ensures !Favoured(code, prePayday, switchable) ==>
              BestAction(code, state, prePayday, switchable, amount) != CustomerNudge
    ensures Favoured(code, prePayday, switchable) && amount >= 49000 ==>
              BestAction(code, state, prePayday, switchable, amount) == CustomerNudge
  {
    hide Net, BestAction, BestNet;
    ListCandidates();
    BestActionIs(code, state, prePayday, switchable, amount);
    if !Favoured(code, prePayday, switchable) {
      NudgeLoses(code, state, prePayday, switchable, amount);
    } else if amount >= 49000 {
      NudgeWins(code, state, prePayday, switchable, BestAction(code, state, prePayday, switchable, amount), amount);
    }
  }

  /** Only a nudge can lose by a greater amount, and it does when what it earns does not make up for the channel. */
  lemma NetDropsIff(action: RecoveryAction, code: TaxonomyCode, state: Health, prePayday: bool, a: int, b: int)
    requires a <= b
    ensures Net(action, code, state, prePayday, b) < Net(action, code, state, prePayday, a) <==>
            action == CustomerNudge && Crosses(a, b) && Gross(NudgePercent(code), b) - Gross(NudgePercent(code), a) < 30
  {
    NudgePercents(code, state, prePayday, false);
    hide Percent, Gross, NudgePercent;
    GrossIsMonotone(Percent(action, code, state, prePayday), a, b);
  }

  lemma CloseAmounts(percent: nat, a: int, b: int)
    requires percent >= 40 && Crosses(a, b) && Gross(percent, b) - Gross(percent, a) < 30
    ensures a >= 49000
  {
    ThousandPaise(percent);
    GrossIsMonotone(percent, 50000, b);
    if a < 49000 {
      GrossIsMonotone(percent, a, 49000);
    }
  }

  lemma ThousandPaise(percent: nat)
    ensures Gross(percent, 50000) == Gross(percent, 49000) + 10 * percent
  {
    assert percent * 50000 / 100 == percent * 500 && percent * 49000 / 100 == percent * 490;
  }

  /** When a larger payment is worth less: exactly when a nudge is favoured, the channel changes in between, and the
      rest of the difference does not earn back the thirty paise by which the channel is dearer. */
  lemma {:induction false} DropIff(code: TaxonomyCode, state: Health, prePayday: bool, switchable: bool, a: int, b: int)
    requires a <= b
    ensures BestNet(code, state, prePayday, switchable, b) < BestNet(code, state, prePayday, switchable, a) <==>
            && Favoured(code, prePayday, switchable) && Crosses(a, b)
            && Gross(NudgePercent(code), b) - Gross(NudgePercent(code), a) < 30
  {
    hide BestNet, BestAction, Net, Favoured, Gross, NudgePercent, Valuations;
    BestActionIs(code, state, prePayday, switchable, a);
    BestActionIs(code, state, prePayday, switchable, b);
    var best := BestAction(code, state, prePayday, switchable, a);
    NetDropsIff(best, code, state, prePayday, a, b);
    NudgePercents(code, state, prePayday, switchable);
    NudgeIsBestIff(code, state, prePayday, switchable, a);
    NudgeIsBestIff(code, state, prePayday, switchable, b);
    if Favoured(code, prePayday, switchable) && Crosses(a, b)
       && Gross(NudgePercent(code), b) - Gross(NudgePercent(code), a) < 30 {
      CloseAmounts(NudgePercent(code), a, b);
    }
  }

  /** Whether that ever happens is told by the action valued most at one paisa below the change: it does exactly when
      that is a nudge. */
  lemma {:induction false} DropsSomewhereIff(code: TaxonomyCode, state: Health, prePayday: bool, switchable: bool)
    ensures (exists a, b :: a <= b &&
               BestNet(code, state, prePayday, switchable, b) < BestNet(code, state, prePayday, switchable, a)) <==>
            BestAction(code, state, prePayday, switchable, 49999) == CustomerNudge
    ensures BestAction(code, state, prePayday, switchable, 49999) == CustomerNudge <==>
            Favoured(code, prePayday, switchable)
  {
    hide BestNet, BestAction, Favoured;
    NudgeIsBestIff(code, state, prePayday, switchable, 49999);
    if Favoured(code, prePayday, switchable) {
      DropIff(code, state, prePayday, switchable, 49999, 50000);
      OnePaisaEarnsLittle(NudgePercent(code));
      NudgePercentIsSmall(code);
      assert BestNet(code, state, prePayday, switchable, 50000) < BestNet(code, state, prePayday, switchable, 49999);
    } else {
      forall a, b | a <= b
        ensures BestNet(code, state, prePayday, switchable, b) >= BestNet(code, state, prePayday, switchable, a)
      {
        DropIff(code, state, prePayday, switchable, a, b);
      }
    }
  }

  lemma NudgePercentIsSmall(code: TaxonomyCode)
    ensures NudgePercent(code) <= 100
  {
  }

  lemma OnePaisaEarnsLittle(percent: nat)
    ensures percent <= 100 ==> Gross(percent, 50000) - Gross(percent, 49999) < 30
  {
  }

  /** Still, a payment worth acting on stays worth acting on when it grows. */
  lemma {:induction false} ActingIsMonotone(code: TaxonomyCode, state: Health, prePayday: bool, switchable: bool,
                                            a: int, b: int)
    requires a <= b && Chosen(code, state, prePayday, switchable, a) != NoAction
    ensures Chosen(code, state, prePayday, switchable, b) != NoAction
  {
    hide Valuations, Net;
    LargerIsWorthMore(code, state, prePayday, switchable, a, b);
    ActsIff(code, state, prePayday, switchable, a);
    ActsIff(code, state, prePayday, switchable, b);
    if Crosses(a, b) {
      LargePaymentsArePursued(code, state, prePayday, switchable, b);
    }
  }

  lemma {:induction false} ActsIff(code: TaxonomyCode, state: Health, prePayday: bool, switchable: bool, amount: int)
    ensures Chosen(code, state, prePayday, switchable, amount) != NoAction <==>
              code != MandateInvalid && BestNet(code, state, prePayday, switchable, amount) > 0
  {
    var vs := Valuations(code, state, prePayday, switchable, amount);
    BestIsChosen(vs, code, state, prePayday, switchable, amount);
  }

  lemma {:induction false} LargePaymentsArePursued(code: TaxonomyCode, state: Health, prePayday: bool,
                                                   switchable: bool, amount: int)
    requires code != MandateInvalid && amount >= 50000
    ensures BestNet(code, state, prePayday, switchable, amount) > 0
  {
    var actions, vs := Candidates(switchable), Valuations(code, state, prePayday, switchable, amount);
    var action := if code == CardExpired then CustomerNudge else RetryScheduled;
    assert Net(action, code, state, prePayday, amount) > 0;
    var k := if code != CardExpired then 1 else |actions| - 2;
    assert actions[k] == action && vs[k].net == Net(action, code, state, prePayday, amount);
  }
}
