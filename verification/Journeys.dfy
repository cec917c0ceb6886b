/** Orders, and the labels of their failures. */
module Journeys {
  // Nobody intervenes on an order; the labels are counterfactual.

  import opened Common
  import opened PayCycle
  import opened RailSimulation
  import opened Outcomes
  import opened TextOrder

  datatype Order = Order(id: string, customer: Option<Customer>, createdAt: real, rail: Rail, mandate: Option<Mandate>)

  datatype Trigger = Checkout | CustomerRetry | MerchantDunning

  datatype Attempt = Attempt(sequence: nat, at: real, trigger: Trigger, rail: Rail, outcome: AttemptOutcome)

  ghost predicate ValidOrder(w: World, order: Order) {
    ValidCustomer(order.customer) && 0.0 <= order.createdAt <= w.horizon
  }

  function MakeAttempt(w: World, order: Order, sequence: nat, at: real, rail: Rail, trigger: Trigger): Attempt
    requires w.Valid() && at >= 0.0 && ValidCustomer(order.customer)
  {
    Attempt(sequence, at, trigger, rail,
            Evaluate(w, order.customer, rail, order.mandate, at, Attempted(order.id, sequence)))
  }

  // ---- checkout ----------------------------------------------------------------

  /** The customer's side of a checkout, keyed by the attempt just failed: whether they try again, after how
      long, and which rail they reach for if they switch to one that exists. */
  datatype Shopper = Shopper(maxAttempts: nat, retries: nat -> bool, delay: nat -> real,
                             switches: nat -> bool, alternative: Rail -> Option<Rail>)
  {
    ghost predicate Valid() {
      maxAttempts >= 1 && forall n: nat :: delay(n) > 0.0
    }
  }

  /** Every attempt was really made of this order, in sequence, at increasing times inside the run, and only
      the last can have succeeded. */
  ghost predicate Sound(w: World, order: Order, attempts: seq<Attempt>)
    requires w.Valid() && ValidOrder(w, order)
  {
    && |attempts| > 0 && attempts[0].at == order.createdAt && attempts[0].rail == order.rail
    && (forall i :: 0 <= i < |attempts| ==>
          && attempts[i].sequence == i + 1
          && order.createdAt <= attempts[i].at <= w.horizon
          && attempts[i] == MakeAttempt(w, order, i + 1, attempts[i].at, attempts[i].rail, attempts[i].trigger))
    && (forall i, j :: 0 <= i < j < |attempts| ==> attempts[i].at < attempts[j].at)
    && (forall i :: 0 <= i < |attempts| - 1 ==> attempts[i].outcome.Failed?)
  }

  /** Attempt `j` is the shopper's answer to attempt `i`. */
  ghost predicate Answers(shopper: Shopper, a: Attempt, b: Attempt) {
    && shopper.retries(a.sequence)
    && b.at == a.at + shopper.delay(a.sequence)
    && b.rail == (if shopper.switches(a.sequence) && shopper.alternative(a.rail).Some?
                  then shopper.alternative(a.rail).value else a.rail)
    && b.trigger == CustomerRetry
  }

  /** Why a checkout stopped where it did. */
  ghost predicate Stops(w: World, shopper: Shopper, a: Attempt) {
    || a.outcome.Success?
    || a.sequence == shopper.maxAttempts
    || !shopper.retries(a.sequence)
    || a.at + shopper.delay(a.sequence) > w.horizon
  }

  method RunCheckout(w: World, shopper: Shopper, order: Order) returns (attempts: seq<Attempt>)
    requires w.Valid() && shopper.Valid() && ValidOrder(w, order)
    ensures Sound(w, order, attempts) && |attempts| <= shopper.maxAttempts
    ensures attempts[0].trigger == Checkout
    ensures forall i :: 0 <= i < |attempts| - 1 ==> Answers(shopper, attempts[i], attempts[i + 1])
    ensures Stops(w, shopper, attempts[|attempts| - 1])
  {
    hide Evaluate;
    attempts := [];
    var rail, at := order.rail, order.createdAt;
    for sequence := 1 to shopper.maxAttempts + 1
      invariant |attempts| == sequence - 1
      invariant attempts == [] ==> at == order.createdAt && rail == order.rail
      invariant order.createdAt <= at <= w.horizon
      invariant attempts != [] ==>
                  && Sound(w, order, attempts) && attempts[0].trigger == Checkout
                  && attempts[|attempts| - 1].outcome.Failed?
                  && attempts[|attempts| - 1].at < at
                  && !Stops(w, shopper, attempts[|attempts| - 1])
                  && at == attempts[|attempts| - 1].at + shopper.delay(sequence - 1)
                  && rail == (var last := attempts[|attempts| - 1].rail;
                              if shopper.switches(sequence - 1) && shopper.alternative(last).Some?
                              then shopper.alternative(last).value else last)
      invariant forall i :: 0 <= i < |attempts| - 1 ==> Answers(shopper, attempts[i], attempts[i + 1])
    {
      var attempt := MakeAttempt(w, order, sequence, at, rail, if sequence == 1 then Checkout else CustomerRetry);
      Extended(w, order, attempts, attempt);
      attempts := attempts + [attempt];
      if attempt.outcome.Success? || sequence == shopper.maxAttempts {
        break;
      }
      if !shopper.retries(sequence) {
        break;
      }
      at := attempt.at + shopper.delay(sequence);
      if at > w.horizon {
        break;
      }
      if shopper.switches(sequence) {
        var alternative := shopper.alternative(rail);
        if alternative.Some? {
          rail := alternative.value;
        }
      }
    }
  }

  lemma Extended(w: World, order: Order, attempts: seq<Attempt>, a: Attempt)
    requires w.Valid() && ValidOrder(w, order)
    requires attempts == [] ==> a.at == order.createdAt && a.rail == order.rail
    requires attempts != [] ==>
               Sound(w, order, attempts) && attempts[|attempts| - 1].outcome.Failed? &&
                   attempts[|attempts| - 1].at < a.at
    requires order.createdAt <= a.at <= w.horizon
    requires a == MakeAttempt(w, order, |attempts| + 1, a.at, a.rail, a.trigger)
    ensures Sound(w, order, attempts + [a])
  {
    hide Evaluate;
  }

  // ---- recurring debits ----------------------------------------------------------

  ghost predicate ValidDunning(offsetsDays: seq<real>) {
    && (forall i :: 0 <= i < |offsetsDays| ==> offsetsDays[i] > 0.0)
    && (forall i, j :: 0 <= i < j < |offsetsDays| ==> offsetsDays[i] < offsetsDays[j])
  }

  /** The attempt is the merchant's, on the order's own rail, so many days after the order. */
  ghost predicate Dunned(order: Order, days: real, a: Attempt) {
    a.at == order.createdAt + days * 86400.0 && a.rail == order.rail && a.trigger == MerchantDunning
  }

  /** One scheduled debit, then the dunning schedule, whatever the cause of failure. */
  method RunRecurring(w: World, offsetsDays: seq<real>, order: Order) returns (attempts: seq<Attempt>)
    requires w.Valid() && ValidDunning(offsetsDays) && ValidOrder(w, order)
    ensures Sound(w, order, attempts) && |attempts| <= |offsetsDays| + 1
    ensures attempts[0].trigger == Checkout
    ensures forall i :: 0 < i < |attempts| ==> Dunned(order, offsetsDays[i - 1], attempts[i])
    ensures attempts[|attempts| - 1].outcome.Success? || |attempts| == |offsetsDays| + 1
         || order.createdAt + offsetsDays[|attempts| - 1] * 86400.0 > w.horizon
  {
    hide Evaluate, Dunned;
    var first := MakeAttempt(w, order, 1, order.createdAt, order.rail, Checkout);
    Extended(w, order, [], first);
    attempts := [first];
    assert [] + [first] == attempts;
    if first.outcome.Success? {
      return;
    }
    for index := 0 to |offsetsDays|
      invariant |attempts| == index + 1
      invariant Sound(w, order, attempts) && attempts[index].outcome.Failed? && attempts[0].trigger == Checkout
      invariant forall i :: 0 < i <= index ==> Dunned(order, offsetsDays[i - 1], attempts[i])
    {
      var at := order.createdAt + offsetsDays[index] * SECONDS_PER_DAY;
      if at > w.horizon {
        break;
      }
      var attempt := MakeAttempt(w, order, index + 2, at, order.rail, MerchantDunning);
      LaterDunning(order, offsetsDays, attempts, index, attempt);
      Extended(w, order, attempts, attempt);
      attempts := attempts + [attempt];
      if attempt.outcome.Success? {
        break;
      }
    }
  }

  lemma LaterDunning(order: Order, offsetsDays: seq<real>, attempts: seq<Attempt>, index: nat, next: Attempt)
    requires ValidDunning(offsetsDays) && index < |offsetsDays| && |attempts| == index + 1
    requires next.at == order.createdAt + offsetsDays[index] * SECONDS_PER_DAY
    requires next.rail == order.rail && next.trigger == MerchantDunning
    requires if index == 0 then attempts[0].at == order.createdAt
             else Dunned(order, offsetsDays[index - 1], attempts[index])
    ensures attempts[index].at < next.at && Dunned(order, offsetsDays[index], next)
  {
  }

  // ---- what a journey says about itself --------------------------------------------

  predicate FirstSuccess(attempts: seq<Attempt>, i: nat) {
    i < |attempts| && attempts[i].outcome.Success? && forall j :: 0 <= j < i ==> attempts[j].outcome.Failed?
  }

  function SucceededAt(attempts: seq<Attempt>): (at: Option<real>)
    ensures at.Some? ==> exists i: nat :: FirstSuccess(attempts, i) && attempts[i].at == at.value
    ensures at.None? ==> forall i :: 0 <= i < |attempts| ==> attempts[i].outcome.Failed?
  {
    if attempts == [] then None
    else if attempts[0].outcome.Success? then
      assert FirstSuccess(attempts, 0);
      Some(attempts[0].at)
    else
      var rest := attempts[1..];
      var later := SucceededAt(rest);
      assert forall j :: 0 < j < |attempts| ==> attempts[j] == rest[j - 1];
      assert forall i: nat :: FirstSuccess(rest, i) ==> FirstSuccess(attempts, i + 1) && attempts[i + 1] == rest[i];
      later
  }

  predicate RecoveredNaturally(attempts: seq<Attempt>, failure: Attempt, window: real) {
    var at := SucceededAt(attempts);
    at.Some? && failure.at < at.value <= failure.at + window
  }

  // ---- labels -----------------------------------------------------------------------

  datatype ActionKind = NoAction | RetrySameRail | SwitchRail

  datatype Counterfactual = Counterfactual(action: ActionKind, offset: real, rail: Rail, outcome: AttemptOutcome)

  datatype OracleAction = OracleAction(action: ActionKind, offset: Option<real>, rail: Option<Rail>, recovers: bool)

  datatype FailureLabel = FailureLabel(cause: FailureCause, permanent: bool, railSpecific: bool,
                                       recoveredNaturally: bool,
                                       naturalDelayMinutes: Option<real>, counterfactuals: seq<Counterfactual>,
                                       oracle: OracleAction)

  datatype LabelError = DidNotFail | OutcomeOrderingChanged

  /** The same mechanism, asked about a time and a rail the order never saw. */
  function Ask(w: World, order: Order, failure: Attempt, action: ActionKind, rail: Rail, offset: real): Counterfactual
    requires w.Valid() && ValidOrder(w, order) && failure.at >= 0.0 && offset >= 0.0
  {
    Counterfactual(action, offset, rail,
                   Evaluate(w, order.customer, rail, order.mandate, failure.at + offset * SECONDS_PER_MINUTE,
                            Hypothetical(Attempted(order.id, failure.sequence), offset, rail)))
  }

  function Choices(failure: Attempt, alternatives: seq<Rail>): seq<(ActionKind, Rail)> {
    [(RetrySameRail, failure.rail)] +
        seq(|alternatives|, i requires 0 <= i < |alternatives| => (SwitchRail, alternatives[i]))
  }

  ghost predicate AllNonNegative(offsets: seq<real>) {
    forall k :: 0 <= k < |offsets| ==> offsets[k] >= 0.0
  }

  /** One choice after every delay. */
  function AskedAbout(w: World, order: Order, failure: Attempt, choice: (ActionKind, Rail), offsets: seq<real>)
    : (cs: seq<Counterfactual>)
    requires w.Valid() && ValidOrder(w, order) && failure.at >= 0.0 && AllNonNegative(offsets)
    ensures |cs| == |offsets|
  {
    seq(|offsets|, k requires 0 <= k < |offsets| => Ask(w, order, failure, choice.0, choice.1, offsets[k]))
  }

  /** Every choice in turn. */
  function AskedInOrder(w: World, order: Order, failure: Attempt, choices: seq<(ActionKind, Rail)>, offsets: seq<real>)
    : (cs: seq<Counterfactual>)
    requires w.Valid() && ValidOrder(w, order) && failure.at >= 0.0 && AllNonNegative(offsets)
    ensures |cs| == |choices| * |offsets|
  {
    if choices == [] then []
    else
      var n := |choices| - 1;
      AskedInOrder(w, order, failure, choices[..n], offsets) + AskedAbout(w, order, failure, choices[n], offsets)
  }

  /** Each question has its place: a block of delays for each choice, in order. */
  lemma {:induction false} AskedAt(w: World, order: Order, failure: Attempt, choices: seq<(ActionKind, Rail)>,
                                   offsets: seq<real>, r: nat, k: nat)
    requires w.Valid() && ValidOrder(w, order) && failure.at >= 0.0 && AllNonNegative(offsets)
    requires r < |choices| && k < |offsets|
    ensures 0 <= r * |offsets| + k < |choices| * |offsets|
    ensures AskedInOrder(w, order, failure, choices, offsets)[r * |offsets| + k] ==
            Ask(w, order, failure, choices[r].0, choices[r].1, offsets[k])
  {
    hide Ask;
    var n := |choices| - 1;
    BlockFits(r, k, |offsets|, n);
    if r < n {
      AskedAt(w, order, failure, choices[..n], offsets, r, k);
    }
  }

  lemma BlockFits(r: nat, k: nat, size: nat, n: nat)
    requires r <= n && k < size
    ensures r < n ==> r * size + k < n * size
    ensures r * size + k < (n + 1) * size
  {
    RowsFit(r, size, n + 1);
    if r < n {
      RowsFit(r, size, n);
    }
  }

  lemma RowsFit(r: nat, size: nat, n: nat)
    requires r < n
    ensures r * size + size <= n * size
  {
    var m := n - r - 1;
    assert m * size >= 0;
    assert n * size == (r + m + 1) * size == r * size + m * size + size;
  }

  lemma {:induction false} AskedInOrderIsAsked(
    w: World, order: Order, failure: Attempt, alternatives: seq<Rail>, offsets: seq<real>,
    choices: seq<(ActionKind, Rail)>)
    requires w.Valid() && ValidOrder(w, order) && failure.at >= 0.0 && AllNonNegative(offsets)
    requires choices <= Choices(failure, alternatives)
    ensures forall c :: c in AskedInOrder(w, order, failure, choices, offsets) ==>
              Asked(w, order, failure, c, alternatives, offsets)
  {
    hide Evaluate, Choices;
    if choices != [] {
      AskedInOrderIsAsked(w, order, failure, alternatives, offsets, choices[..|choices| - 1]);
    }
  }

  /** Same rail and every alternative, each after every delay, in that order; refuses exactly if a permanent failure
      seems recoverable. */
  method Counterfactuals(w: World, order: Order, failure: Attempt, cause: FailureCause, alternatives: seq<Rail>,
                         offsets: seq<real>)
    returns (results: Result<seq<Counterfactual>, LabelError>)
    requires w.Valid() && ValidOrder(w, order) && failure.at >= 0.0
    requires AllNonNegative(offsets)
    ensures results ==
            var all := AskedInOrder(w, order, failure, Choices(failure, alternatives), offsets);
            if cause.IsPermanent() && exists c :: c in all && c.outcome.Success? then Err(OutcomeOrderingChanged)
            else Ok(all)
    ensures forall c :: c in AskedInOrder(w, order, failure, Choices(failure, alternatives), offsets) ==>
              Asked(w, order, failure, c, alternatives, offsets)
  {
    hide Evaluate, Ask;
    var rails := Choices(failure, alternatives);
    var found := [];
    for r := 0 to |rails|
      invariant found == AskedInOrder(w, order, failure, rails[..r], offsets)
    {
      ghost var before := found;
      for k := 0 to |offsets|
        invariant found == before + AskedAbout(w, order, failure, rails[r], offsets)[..k]
      {
        found := found + [Ask(w, order, failure, rails[r].0, rails[r].1, offsets[k])];
      }
      assert rails[..r + 1][..r] == rails[..r];
    }
    assert rails[..|rails|] == rails;
    AskedInOrderIsAsked(w, order, failure, alternatives, offsets, rails);
    if cause.IsPermanent() && exists i :: 0 <= i < |found| && found[i].outcome.Success? {
      return Err(OutcomeOrderingChanged);
    }
    results := Ok(found);
  }

  ghost predicate Asked(w: World, order: Order, failure: Attempt, c: Counterfactual, alternatives: seq<Rail>,
                        offsets: seq<real>)
    requires w.Valid() && ValidOrder(w, order) && failure.at >= 0.0
  {
    && (c.action, c.rail) in Choices(failure, alternatives)
    && c.offset in offsets && c.offset >= 0.0
    && c == Ask(w, order, failure, c.action, c.rail, c.offset)
  }

  // ---- the oracle ---------------------------------------------------------------------

  function RailName(rail: Rail): string {
    rail.issuer + "|" + rail.payBy
  }

  /** Earlier first; then retrying the same rail; then the rail's name. */
  predicate Better(a: Counterfactual, b: Counterfactual) {
    || a.offset < b.offset
    || (a.offset == b.offset && a.action == RetrySameRail && b.action != RetrySameRail)
    || (a.offset == b.offset && (a.action == RetrySameRail) == (b.action == RetrySameRail) &&
        Precedes(RailName(a.rail), RailName(b.rail)))
  }

  /** The first of the best successes. */
  function BestSuccess(cs: seq<Counterfactual>): Option<Counterfactual> {
    if cs == [] then None
    else
      var best := BestSuccess(cs[..|cs| - 1]);
      var c := cs[|cs| - 1];
      if c.outcome.Failed? then best
      else if best.None? || Better(c, best.value) then Some(c)
      else best
  }

  function Oracle(cs: seq<Counterfactual>): OracleAction {
    match BestSuccess(cs)
    case None => OracleAction(NoAction, None, None, false)
    case Some(c) => OracleAction(c.action, Some(c.offset), Some(c.rail), true)
  }

  lemma {:induction false} BestSuccessIsBest(cs: seq<Counterfactual>)
    ensures BestSuccess(cs).None? <==> forall c :: c in cs ==> c.outcome.Failed?
    ensures BestSuccess(cs).Some? ==>
              var best := BestSuccess(cs).value;
              best in cs && best.outcome.Success? && forall c :: c in cs && c.outcome.Success? ==> !Better(c, best)
  {
    if cs != [] {
      var n := |cs| - 1;
      BestSuccessIsBest(cs[..n]);
      assert cs == cs[..n] + [cs[n]];
      var before, c := BestSuccess(cs[..n]), cs[n];
      NeverBetterThanItself(c);
      if c.outcome.Success? && before.Some? && Better(c, before.value) {
        forall d | d in cs[..n] && d.outcome.Success? ensures !Better(d, c) {
          if Better(d, c) {
            BetterIsTransitive(d, c, before.value);
          }
        }
      }
    }
  }

  /** The oracle names this counterfactual. */
  predicate Names(oracle: OracleAction, c: Counterfactual) {
    oracle == OracleAction(c.action, Some(c.offset), Some(c.rail), true)
  }

  /** No success comes earlier; of those as early, none retries the same rail where this one does not; and of those
      alike in both, none is on a rail of an earlier name. */
  predicate Unbeaten(c: Counterfactual, d: Counterfactual) {
    && c.offset <= d.offset
    && (c.offset == d.offset && d.action == RetrySameRail ==> c.action == RetrySameRail)
    && (c.offset == d.offset && (c.action == RetrySameRail <==> d.action == RetrySameRail) ==>
          !Precedes(RailName(d.rail), RailName(c.rail)))
  }

  /** The oracle recovers exactly when some counterfactual does, and then names one that none beats; otherwise it
      advises nothing. */
  lemma OracleIsBest(cs: seq<Counterfactual>)
    ensures Oracle(cs).recovers <==> exists c :: c in cs && c.outcome.Success?
    ensures Oracle(cs).recovers ==>
              exists c :: c in cs && c.outcome.Success? && Names(Oracle(cs), c)
                          && forall d :: d in cs && d.outcome.Success? ==> Unbeaten(c, d)
    ensures !Oracle(cs).recovers ==> Oracle(cs) == OracleAction(NoAction, None, None, false)
  {
    BestSuccessIsBest(cs);
    if BestSuccess(cs).Some? {
      var c := BestSuccess(cs).value;
      assert Names(Oracle(cs), c);
      forall d | d in cs && d.outcome.Success? ensures Unbeaten(c, d) {
        assert !Better(d, c);
      }
    }
  }

  lemma NeverBetterThanItself(c: Counterfactual)
    ensures !Better(c, c)
  {
    if Precedes(RailName(c.rail), RailName(c.rail)) {
      NotBoth(RailName(c.rail), RailName(c.rail));
    }
  }

  lemma BetterIsTransitive(a: Counterfactual, b: Counterfactual, c: Counterfactual)
    requires Better(a, b) && Better(b, c)
    ensures Better(a, c)
  {
    if Precedes(RailName(a.rail), RailName(b.rail)) && Precedes(RailName(b.rail), RailName(c.rail)) {
      PrecedesIsTransitive(RailName(a.rail), RailName(b.rail), RailName(c.rail));
    }
  }

  // ---- labelling a failure --------------------------------------------------------------

  /** The answer for the `r`-th choice, the failed rail first, after the `k`-th delay. */
  function Answer(w: World, order: Order, failure: Attempt, alternatives: seq<Rail>, offsets: seq<real>,
                  r: nat, k: nat): Counterfactual
    requires w.Valid() && ValidOrder(w, order) && failure.at >= 0.0 && AllNonNegative(offsets)
    requires r <= |alternatives| && k < |offsets|
  {
    var rail := if r == 0 then failure.rail else alternatives[r - 1];
    Counterfactual(if r == 0 then RetrySameRail else SwitchRail, offsets[k], rail,
                   Evaluate(w, order.customer, rail, order.mandate, failure.at + 60.0 * offsets[k],
                            Hypothetical(Attempted(order.id, failure.sequence), offsets[k], rail)))
  }

  lemma {:induction false} AnswersAreAsked(w: World, order: Order, failure: Attempt, alternatives: seq<Rail>,
                                           offsets: seq<real>, r: nat, k: nat)
    requires w.Valid() && ValidOrder(w, order) && failure.at >= 0.0 && AllNonNegative(offsets)
    requires r <= |alternatives| && k < |offsets|
    ensures var all := AskedInOrder(w, order, failure, Choices(failure, alternatives), offsets);
            && 0 <= r * |offsets| + k < |all|
            && all[r * |offsets| + k] == Answer(w, order, failure, alternatives, offsets, r, k)
  {
    hide Evaluate;
    AskedAt(w, order, failure, Choices(failure, alternatives), offsets, r, k);
  }

  /** Every place in the list is that of a choice and a delay. */
  lemma PlaceOf(i: nat, rows: nat, size: nat) returns (r: nat, k: nat)
    requires i < rows * size
    ensures r < rows && k < size && r * size + k == i
  {
    assert rows * 0 == 0;
    r, k := i / size, i % size;
    RowsBelow(r, rows, size);
  }

  lemma RowsBelow(r: nat, rows: nat, size: nat)
    ensures r >= rows ==> r * size >= rows * size
  {
    if r >= rows {
      assert r * size == rows * size + (r - rows) * size;
    }
  }

  /** What a label says of its failure: the answers, each in its place, and the best of them. */
  ghost predicate Covers(entry: FailureLabel, w: World, order: Order, failure: Attempt, alternatives: seq<Rail>,
                         offsets: seq<real>)
    requires w.Valid() && ValidOrder(w, order) && failure.at >= 0.0 && AllNonNegative(offsets)
  {
    && |entry.counterfactuals| == (|alternatives| + 1) * |offsets|
    && (forall r: nat, k: nat :: r <= |alternatives| && k < |offsets| ==>
          0 <= r * |offsets| + k < |entry.counterfactuals| &&
          entry.counterfactuals[r * |offsets| + k] == Answer(w, order, failure, alternatives, offsets, r, k))
    && (entry.oracle.recovers <==>
          exists r: nat, k: nat ::
            r <= |alternatives| && k < |offsets| &&
            Answer(w, order, failure, alternatives, offsets, r, k).outcome.Success?)
    && (entry.oracle.recovers ==>
          exists r: nat, k: nat ::
            r <= |alternatives| && k < |offsets| &&
            IsOracle(entry.oracle, w, order, failure, alternatives, offsets, r, k))
    && (!entry.oracle.recovers ==> entry.oracle == OracleAction(NoAction, None, None, false))
  }

  ghost predicate IsOracle(oracle: OracleAction, w: World, order: Order, failure: Attempt, alternatives: seq<Rail>,
                           offsets: seq<real>, r: nat, k: nat)
    requires w.Valid() && ValidOrder(w, order) && failure.at >= 0.0 && AllNonNegative(offsets)
    requires r <= |alternatives| && k < |offsets|
  {
    var best := Answer(w, order, failure, alternatives, offsets, r, k);
    && best.outcome.Success? && Names(oracle, best)
    && forall r': nat, k': nat :: r' <= |alternatives| && k' < |offsets| ==>
         var other := Answer(w, order, failure, alternatives, offsets, r', k');
         other.outcome.Success? ==> Unbeaten(best, other)
  }

  lemma LabelCovers(entry: FailureLabel, w: World, order: Order, failure: Attempt, alternatives: seq<Rail>,
                    offsets: seq<real>)
    requires w.Valid() && ValidOrder(w, order) && failure.at >= 0.0 && AllNonNegative(offsets)
    requires entry.counterfactuals == AskedInOrder(w, order, failure, Choices(failure, alternatives), offsets)
    requires entry.oracle == Oracle(entry.counterfactuals)
    ensures Covers(entry, w, order, failure, alternatives, offsets)
  {
    hide Answer, AskedInOrder, Choices, Unbeaten, Oracle;
    var cs := entry.counterfactuals;
    ChoicesAre(failure, alternatives);
    forall r: nat, k: nat | r <= |alternatives| && k < |offsets|
      ensures 0 <= r * |offsets| + k < |cs|
      ensures cs[r * |offsets| + k] == Answer(w, order, failure, alternatives, offsets, r, k)
      ensures Answer(w, order, failure, alternatives, offsets, r, k) in cs
    {
      AnswersAreAsked(w, order, failure, alternatives, offsets, r, k);
    }
    OracleIsBest(cs);
    if entry.oracle.recovers {
      var c :| c in cs && c.outcome.Success? && Names(entry.oracle, c)
               && forall d :: d in cs && d.outcome.Success? ==> Unbeaten(c, d);
      var i: nat :| i < |cs| && cs[i] == c;
      var r, k := PlaceOf(i, |alternatives| + 1, |offsets|);
      assert Answer(w, order, failure, alternatives, offsets, r, k) == c;
      assert IsOracle(entry.oracle, w, order, failure, alternatives, offsets, r, k);
    }
  }

  lemma ChoicesAre(failure: Attempt, alternatives: seq<Rail>)
    ensures |Choices(failure, alternatives)| == |alternatives| + 1
  {
  }

  /** A success of its own within the window, and how long it took. */
  ghost predicate OnItsOwn(entry: FailureLabel, attempts: seq<Attempt>, failure: Attempt, window: real) {
    && (entry.recoveredNaturally <==>
          exists i: nat :: FirstSuccess(attempts, i) && failure.at < attempts[i].at <= failure.at + window)
    && (entry.naturalDelayMinutes.Some? <==> entry.recoveredNaturally)
    && (entry.recoveredNaturally ==>
          forall i: nat :: FirstSuccess(attempts, i) ==>
            60.0 * entry.naturalDelayMinutes.value == attempts[i].at - failure.at)
  }

  method Label(w: World, order: Order, attempts: seq<Attempt>, failure: Attempt, alternatives: seq<Rail>,
               offsets: seq<real>, window: real)
    returns (made: Result<FailureLabel, LabelError>)
    requires w.Valid() && ValidOrder(w, order) && Sound(w, order, attempts) && failure in attempts
    requires AllNonNegative(offsets)
    ensures made.Err? <==> failure.outcome.Success?
    ensures made.Err? ==> made.error == DidNotFail
    ensures made.Ok? ==>
              && made.value.cause == failure.outcome.cause
              && made.value.permanent == failure.outcome.cause.IsPermanent()
              && made.value.railSpecific == failure.outcome.cause.IsRailSpecific()
              && OnItsOwn(made.value, attempts, failure, window)
              && Covers(made.value, w, order, failure, alternatives, offsets)
  {
    hide Evaluate, Covers, AskedInOrder, Oracle;
    if failure.outcome.Success? {
      return Err(DidNotFail);
    }
    var cause := failure.outcome.cause;
    var counterfactuals := Counterfactuals(w, order, failure, cause, alternatives, offsets);
    if counterfactuals.Err? {
      ghost var c :| Asked(w, order, failure, c, alternatives, offsets) && c.outcome.Success?;
      PermanentFailsEverywhere(w, order, attempts, failure, c, alternatives, offsets);
      assert false;
    }
    var successAt := SucceededAt(attempts);
    var recovered := RecoveredNaturally(attempts, failure, window);
    var entry := FailureLabel(cause, cause.IsPermanent(), cause.IsRailSpecific(), recovered,
                              if recovered then Some((successAt.value - failure.at) / SECONDS_PER_MINUTE) else None,
                              counterfactuals.value, Oracle(counterfactuals.value));
    LabelCovers(entry, w, order, failure, alternatives, offsets);
    OneFirstSuccess(attempts);
    made := Ok(entry);
  }

  lemma OneFirstSuccess(attempts: seq<Attempt>)
    ensures forall i: nat :: FirstSuccess(attempts, i) ==> SucceededAt(attempts) == Some(attempts[i].at)
  {
    forall i: nat | FirstSuccess(attempts, i) ensures SucceededAt(attempts) == Some(attempts[i].at) {
      if SucceededAt(attempts).Some? {
        var j: nat :| FirstSuccess(attempts, j) && attempts[j].at == SucceededAt(attempts).value;
        assert i == j;
      }
    }
  }

  lemma MadeOf(w: World, order: Order, attempts: seq<Attempt>, a: Attempt)
    requires w.Valid() && ValidOrder(w, order) && Sound(w, order, attempts) && a in attempts
    ensures order.createdAt <= a.at <= w.horizon
    ensures a.outcome == Evaluate(w, order.customer, a.rail, order.mandate, a.at, Attempted(order.id, a.sequence))
  {
  }

  lemma PermanentFailsEverywhere(w: World, order: Order, attempts: seq<Attempt>, failure: Attempt, c: Counterfactual,
                                 alternatives: seq<Rail>, offsets: seq<real>)
    requires w.Valid() && ValidOrder(w, order) && Sound(w, order, attempts) && failure in attempts
    requires failure.outcome.Failed? && failure.outcome.cause.IsPermanent()
    requires Asked(w, order, failure, c, alternatives, offsets)
    ensures c.outcome.Failed? && c.outcome.cause.IsPermanent()
  {
    hide Evaluate;
    MadeOf(w, order, attempts, failure);
    PermanentIsForever(w, order.customer, order.mandate, failure.rail, failure.at,
                       Attempted(order.id, failure.sequence),
                       c.rail, failure.at + c.offset * SECONDS_PER_MINUTE,
                       Hypothetical(Attempted(order.id, failure.sequence), c.offset, c.rail));
  }

  /** Once a mandate cause is reported, the order is over: every later attempt fails with a mandate cause, the
      order never succeeds, no counterfactual succeeds at any delay on any rail, and the oracle says so. */
  lemma {:induction false} PermanentIsTheEnd(w: World, order: Order, attempts: seq<Attempt>, i: nat,
                                             cs: seq<Counterfactual>,
                          alternatives: seq<Rail>, offsets: seq<real>, window: real)
    requires w.Valid() && ValidOrder(w, order) && Sound(w, order, attempts) && i < |attempts|
    requires attempts[i].outcome.Failed? && attempts[i].outcome.cause.IsPermanent()
    requires forall c :: c in cs ==> Asked(w, order, attempts[i], c, alternatives, offsets)
    ensures forall j :: i <= j < |attempts| ==> attempts[j].outcome.Failed? && attempts[j].outcome.cause.IsPermanent()
    ensures SucceededAt(attempts).None? && !RecoveredNaturally(attempts, attempts[i], window)
    ensures forall c :: c in cs ==> c.outcome.Failed?
    ensures !Oracle(cs).recovers
  {
    hide Evaluate;
    forall j | i <= j < |attempts| ensures attempts[j].outcome.Failed? && attempts[j].outcome.cause.IsPermanent() {
      if i < j {
        MadeOf(w, order, attempts, attempts[i]);
        MadeOf(w, order, attempts, attempts[j]);
        PermanentIsForever(w, order.customer, order.mandate, attempts[i].rail, attempts[i].at,
                           Attempted(order.id, attempts[i].sequence),
                           attempts[j].rail, attempts[j].at, Attempted(order.id, attempts[j].sequence));
      }
    }
    forall c | c in cs ensures c.outcome.Failed? {
      PermanentFailsEverywhere(w, order, attempts, attempts[i], c, alternatives, offsets);
    }
    OracleIsBest(cs);
  }

  /** An empty account is empty whichever rail asks: no counterfactual at offset zero succeeds, so if the oracle
      recovers the payment at all it does so by waiting. */
  lemma EmptyAccountNeedsWaiting(w: World, order: Order, attempts: seq<Attempt>, failure: Attempt,
                                 cs: seq<Counterfactual>,
                                 alternatives: seq<Rail>, offsets: seq<real>)
    requires w.Valid() && ValidOrder(w, order) && Sound(w, order, attempts) && failure in attempts
    requires failure.outcome == Failed(InsufficientFunds)
    requires forall c :: c in cs ==> Asked(w, order, failure, c, alternatives, offsets)
    ensures forall c :: c in cs && c.offset == 0.0 ==> c.outcome.Failed?
    ensures Oracle(cs).recovers ==> Oracle(cs).offset.value > 0.0
  {
    hide Evaluate;
    MadeOf(w, order, attempts, failure);
    OnlyCustomersFallShort(w, order.customer, failure.rail, order.mandate, failure.at,
                           Attempted(order.id, failure.sequence));
    forall c | c in cs && c.offset == 0.0 ensures c.outcome.Failed? {
      assert Asked(w, order, failure, c, alternatives, offsets);
      assert failure.at + c.offset * SECONDS_PER_MINUTE == failure.at;
      ShortfallPersists(w, order.customer.value, order.mandate, failure.rail, failure.at,
                        Attempted(order.id, failure.sequence),
                        c.rail, failure.at, Hypothetical(Attempted(order.id, failure.sequence), c.offset, c.rail));
    }
    OracleIsBest(cs);
  }

  /** No label reads past the health paths, which are simulated beyond the run by the longest offset. */
  lemma QueriesInsideHealthHorizon(w: World, order: Order, attempts: seq<Attempt>, failure: Attempt, c: Counterfactual,
                                   alternatives: seq<Rail>, offsets: seq<real>, longest: real)
    requires w.Valid() && ValidOrder(w, order) && Sound(w, order, attempts) && failure in attempts
    requires Asked(w, order, failure, c, alternatives, offsets)
    requires forall k :: 0 <= k < |offsets| ==> offsets[k] <= longest
    ensures 0.0 <= failure.at + c.offset * SECONDS_PER_MINUTE <= w.horizon + longest * SECONDS_PER_MINUTE
  {
    MadeOf(w, order, attempts, failure);
  }
}
