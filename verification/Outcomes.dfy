/** Mandates, and the fate of a payment. */
module Outcomes {
  import opened Common
  import opened PayCycle
  import opened Trajectories
  import opened RailSimulation

  const SECONDS_PER_MINUTE: real := 60.0

  // ---- mandates ---------------------------------------------------------------

  datatype MandateState = Active | Expired | Revoked

  datatype Mandate = Mandate(id: string, expiresAt: real, revokedAt: Option<real>, firstDebitAt: real, interval: real) {
    function StateAt(t: real): MandateState {
      if revokedAt.Some? && t >= revokedAt.value then Revoked
      else if t >= expiresAt then Expired
      else Active
    }

    predicate IsDeadAt(t: real) {
      StateAt(t) != Active
    }

    function Scheduled(n: nat): real {
      firstDebitAt + n as real * interval
    }

    /** Which of the first `n` scheduled debits fall inside `[0, horizon]`. */
    ghost function DebitsAmong(n: nat, horizon: real): seq<real> {
      if n == 0 then []
      else DebitsAmong(n - 1, horizon) + (if 0.0 <= Scheduled(n - 1) <= horizon then [Scheduled(n - 1)] else [])
    }

    lemma {:induction false} DebitsAmongAreExact(n: nat, horizon: real)
      requires interval > 0.0
      ensures StrictlyIncreasing(DebitsAmong(n, horizon))
      ensures forall x :: x in DebitsAmong(n, horizon) <==>
              exists m: nat :: m < n && x == Scheduled(m) && 0.0 <= x <= horizon
    {
      if n > 0 {
        DebitsAmongAreExact(n - 1, horizon);
        var earlier := DebitsAmong(n - 1, horizon);
        forall x | x in earlier ensures x < Scheduled(n - 1) {
          var m: nat :| m < n - 1 && x == Scheduled(m);
          ScheduledLater(m, n - 1);
        }
        if 0.0 <= Scheduled(n - 1) <= horizon {
          ScheduledNext(DebitsAmong(n - 1, horizon), Scheduled(n - 1));
        }
      }
    }

    /** Exactly the scheduled debits inside `[0, horizon]`, live mandate or not, in order. */
    method DebitTimes(horizon: real) returns (times: seq<real>)
      requires interval > 0.0
      ensures StrictlyIncreasing(times)
      ensures forall x :: x in times <==> exists m: nat :: x == Scheduled(m) && 0.0 <= x <= horizon
    {
      times := [];
      var t := firstDebitAt;
      ghost var n: nat := 0;
      ghost var steps := StepsToPass(t, interval, horizon);
      while t <= horizon
        invariant t == Scheduled(n) && times == DebitsAmong(n, horizon)
        invariant t + steps as real * interval > horizon && steps >= 0
        decreases steps
      {
        if t >= 0.0 {
          times := times + [t];
        }
        NextScheduled(n);
        assert steps as real * interval == (steps - 1) as real * interval + interval;
        assert steps > 0;
        t := t + interval;
        n := n + 1;
        steps := steps - 1;
      }
      DebitsAmongAreExact(n, horizon);
      forall m: nat | n <= m ensures horizon < Scheduled(m) {
        if n < m {
          ScheduledLater(n, m);
        }
      }
    }

    lemma NextScheduled(n: nat)
      ensures Scheduled(n + 1) == Scheduled(n) + interval
    {
    }

    lemma ScheduledLater(m: nat, n: nat)
      requires m < n && interval > 0.0
      ensures Scheduled(m) < Scheduled(n)
    {
      assert (n - m) as real * interval > 0.0;
      assert n as real * interval == m as real * interval + (n - m) as real * interval;
    }
  }

  lemma ScheduledNext(times: seq<real>, t: real)
    requires StrictlyIncreasing(times) && forall x :: x in times ==> x < t
    ensures StrictlyIncreasing(times + [t])
  {
    var longer := times + [t];
    forall i, j | 0 <= i < j < |longer| ensures longer[i] < longer[j] {
      assert longer[i] in times;
    }
  }

  lemma StepsToPass(t: real, interval: real, horizon: real) returns (steps: int)
    requires interval > 0.0
    ensures steps >= 0 && t + steps as real * interval > horizon
  {
    if t > horizon {
      steps := 0;
    } else {
      var q := (horizon - t) / interval;
      steps := q.Floor + 1;
      assert q * interval == horizon - t;
      assert steps as real > q;
      assert steps as real * interval > q * interval;
    }
  }

  /** A mandate registered at `createdAt`: a revocation that would come after expiry is never recorded. */
  function CreateMandate(id: string, createdAt: real, lifetime: real, timeToRevoke: Option<real>,
                         firstDebitAt: real, interval: real): Mandate {
    var expiresAt := createdAt + lifetime;
    var revokedAt := if timeToRevoke.Some? && createdAt + timeToRevoke.value < expiresAt
                     then Some(createdAt + timeToRevoke.value) else None;
    Mandate(id, expiresAt, revokedAt, firstDebitAt, interval)
  }

  /** It expires when its lifetime is over, and is revoked instead exactly if a revocation would come sooner. */
  lemma MandateIs(id: string, createdAt: real, lifetime: real, timeToRevoke: Option<real>,
                  firstDebitAt: real, interval: real, t: real)
    ensures var m := CreateMandate(id, createdAt, lifetime, timeToRevoke, firstDebitAt, interval);
            var age := t - createdAt;
            var revocable := timeToRevoke.Some? && timeToRevoke.value < lifetime;
            && (m.StateAt(t) == Active <==> age < lifetime && (timeToRevoke.Some? ==> age < timeToRevoke.value))
            && (m.StateAt(t) == Revoked <==> revocable && age >= timeToRevoke.value)
            && (m.StateAt(t) == Expired <==> !revocable && age >= lifetime)
            && m.firstDebitAt == firstDebitAt && m.interval == interval
  {
  }

  lemma DeadStaysDead(m: Mandate, t: real, later: real)
    requires m.IsDeadAt(t) && t <= later
    ensures m.IsDeadAt(later)
  {
  }

  /** A mandate made by the book also keeps the reason it died. */
  lemma DeadKeepsItsReason(id: string, createdAt: real, lifetime: real, timeToRevoke: Option<real>,
                           firstDebitAt: real, interval: real, t: real, later: real)
    requires t <= later
    requires CreateMandate(id, createdAt, lifetime, timeToRevoke, firstDebitAt, interval).IsDeadAt(t)
    ensures var m := CreateMandate(id, createdAt, lifetime, timeToRevoke, firstDebitAt, interval);
            m.StateAt(later) == m.StateAt(t)
  {
  }

  // ---- one attempt -------------------------------------------------------------

  datatype FailureCause = MandateExpired | MandateRevoked | InstrumentExpired | InsufficientFunds
                        | IssuerUnavailable | IssuerDegraded | DeclinedByIssuer {
    predicate IsPermanent() {
      this == MandateExpired || this == MandateRevoked
    }

    predicate IsRailSpecific() {
      this == IssuerUnavailable || this == IssuerDegraded || this == DeclinedByIssuer || this == InstrumentExpired
    }
  }

  datatype AttemptOutcome = Success | Failed(cause: FailureCause)

  datatype Rail = Rail(issuer: string, payBy: string)

  datatype Customer = Customer(id: string, payday: nat, pressure: real)

  /** What keys a rail draw: a real attempt, or the hypothetical one a label asks about. */
  datatype AttemptKey = Attempted(order: string, sequence: nat) | Hypothetical(of: AttemptKey, offset: real, rail: Rail)

  /** Everything that is true whether or not anyone looks. The draws are arbitrary functions of their keys. */
  datatype World = World(
    startsAt: real,
    horizon: real,
    path: Rail -> Trajectory<RailState>,
    baseFailureRate: string -> real,
    multiplier: RailState -> real,
    instrumentExpiredRate: real,
    cycle: SalaryCycle,
    bucketSeconds: real,
    railDraw: AttemptKey -> real,
    instrumentDraw: string -> real,
    fundsDraw: (string, int) -> real)
  {
    ghost predicate Valid() {
      && startsAt >= 0.0 && bucketSeconds > 0.0 && cycle.Valid()
      && forall rail :: path(rail).Valid()
    }

    function Bucket(t: real): int
      requires bucketSeconds > 0.0
    {
      (t / bucketSeconds).Floor
    }

    function Reading(t: real): Local
      requires startsAt >= 0.0 && t >= 0.0
    {
      LocalAt(startsAt + t / SECONDS_PER_DAY)
    }
  }

  predicate InstrumentDead(w: World, customer: Customer, rail: Rail) {
    rail.payBy == "card" && w.instrumentDraw(customer.id) < w.instrumentExpiredRate
  }

  function RailCheck(w: World, rail: Rail, t: real, key: AttemptKey): Option<FailureCause>
    requires w.Valid()
  {
    var state := At(w.path(rail), t);
    if w.railDraw(key) < (1.0 - w.baseFailureRate(rail.payBy)) * w.multiplier(state) then None
    else
      match state
      case Down => Some(IssuerUnavailable)
      case Degraded => Some(IssuerDegraded)
      case Healthy => Some(DeclinedByIssuer)
  }

  function FundsRisk(w: World, customer: Customer, t: real): real
    requires w.Valid() && t >= 0.0 && 1 <= customer.payday <= 28
  {
    InsufficientFundsProbability(w.cycle, customer.pressure, w.Reading(t), customer.payday)
  }

  predicate BalanceShort(w: World, customer: Customer, t: real)
    requires w.Valid() && t >= 0.0 && 1 <= customer.payday <= 28
  {
    w.fundsDraw(customer.id, w.Bucket(t)) < FundsRisk(w, customer, t)
  }

  ghost predicate ValidCustomer(customer: Option<Customer>) {
    customer.Some? ==> 1 <= customer.value.payday <= 28 && customer.value.pressure > 0.0
  }

  /** Mandate, instrument, rail, balance: the order decides which cause is reported. */
  function Evaluate(w: World, customer: Option<Customer>, rail: Rail, mandate: Option<Mandate>, t: real,
                    key: AttemptKey): AttemptOutcome
    requires w.Valid() && t >= 0.0 && ValidCustomer(customer)
  {
    if mandate.Some? && mandate.value.StateAt(t) == Expired then Failed(MandateExpired)
    else if mandate.Some? && mandate.value.StateAt(t) == Revoked then Failed(MandateRevoked)
    else if customer.Some? && InstrumentDead(w, customer.value, rail) then Failed(InstrumentExpired)
    else
      var declined := RailCheck(w, rail, t, key);
      if declined.Some? then Failed(declined.value)
      else if customer.Some? && BalanceShort(w, customer.value, t) then Failed(InsufficientFunds)
      else Success
  }

  // ---- what a failure says about every other attempt ---------------------------

  /** A cause is permanent exactly when the mandate is dead, whatever the rail and the draws. */
  lemma PermanentIffMandateDead(w: World, customer: Option<Customer>, rail: Rail, mandate: Option<Mandate>, t: real,
                                key: AttemptKey)
    requires w.Valid() && t >= 0.0 && ValidCustomer(customer)
    ensures var o := Evaluate(w, customer, rail, mandate, t, key);
            (o.Failed? && o.cause.IsPermanent()) <==> mandate.Some? && mandate.value.IsDeadAt(t)
  {
  }

  /** Nothing collects after a permanent failure: not later, not on another rail, not under another draw. */
  lemma PermanentIsForever(w: World, customer: Option<Customer>, mandate: Option<Mandate>,
                           rail: Rail, t: real, key: AttemptKey, rail': Rail, later: real, key': AttemptKey)
    requires w.Valid() && 0.0 <= t <= later && ValidCustomer(customer)
    requires var o := Evaluate(w, customer, rail, mandate, t, key); o.Failed? && o.cause.IsPermanent()
    ensures var o := Evaluate(w, customer, rail', mandate, later, key'); o.Failed? && o.cause.IsPermanent()
  {
    PermanentIffMandateDead(w, customer, rail, mandate, t, key);
    DeadStaysDead(mandate.value, t, later);
    PermanentIffMandateDead(w, customer, rail', mandate, later, key');
  }

  /** The account answers for the moment, not for the rail: a shortfall persists for as long as the balance
      bucket lasts and the risk has not fallen. */
  lemma ShortfallPersists(w: World, customer: Customer, mandate: Option<Mandate>,
                          rail: Rail, t: real, key: AttemptKey, rail': Rail, later: real, key': AttemptKey)
    requires w.Valid() && 0.0 <= t && 0.0 <= later && ValidCustomer(Some(customer))
    requires Evaluate(w, Some(customer), rail, mandate, t, key) == Failed(InsufficientFunds)
    requires w.Bucket(later) == w.Bucket(t) && FundsRisk(w, customer, t) <= FundsRisk(w, customer, later)
    ensures Evaluate(w, Some(customer), rail', mandate, later, key').Failed?
  {
  }

  lemma OnlyCustomersFallShort(w: World, customer: Option<Customer>, rail: Rail, mandate: Option<Mandate>, t: real,
                               key: AttemptKey)
    requires w.Valid() && t >= 0.0 && ValidCustomer(customer)
    requires Evaluate(w, customer, rail, mandate, t, key) == Failed(InsufficientFunds)
    ensures customer.Some?
  {
  }

  /** So retrying an empty account is futile, on every rail, until its bucket turns, the month ends or the
      salary arrives. */
  lemma WaitingForPayday(w: World, customer: Customer, mandate: Option<Mandate>,
                         rail: Rail, t: real, key: AttemptKey, rail': Rail, later: real, key': AttemptKey)
    requires w.Valid() && 0.0 <= t <= later && ValidCustomer(Some(customer))
    requires Evaluate(w, Some(customer), rail, mandate, t, key) == Failed(InsufficientFunds)
    requires w.Bucket(later) == w.Bucket(t) && w.Reading(later).month == w.Reading(t).month
    requires !(w.Reading(t).Instant() < PaydayMidnight(w.Reading(t).month, customer.payday) <=
               w.Reading(later).Instant())
    ensures Evaluate(w, Some(customer), rail', mandate, later, key').Failed?
  {
    var a, b := w.Reading(t), w.Reading(later);
    assert t / SECONDS_PER_DAY <= later / SECONDS_PER_DAY;
    NeverFallsWithinMonth(w.cycle, a, b, customer.payday);
    ProbabilityFollowsRate(w.cycle, customer.pressure, a, b, customer.payday);
    ShortfallPersists(w, customer, mandate, rail, t, key, rail', later, key');
  }

  // ---- when an attempt succeeds -------------------------------------------------

  /** The draw of an attempt is not below its rail's chance in a state. */
  predicate Misses(w: World, rail: Rail, state: RailState, key: AttemptKey) {
    w.railDraw(key) >= (1.0 - w.baseFailureRate(rail.payBy)) * w.multiplier(state)
  }

  /** What stands in the way of an attempt: each cause by itself, whatever the others do. */
  ghost predicate Obstructs(cause: FailureCause, w: World, customer: Option<Customer>, rail: Rail,
                            mandate: Option<Mandate>, t: real, key: AttemptKey)
    requires w.Valid() && t >= 0.0 && ValidCustomer(customer)
  {
    match cause
    case MandateExpired => mandate.Some? && mandate.value.expiresAt <= t
    case MandateRevoked => mandate.Some? && mandate.value.revokedAt.Some? && mandate.value.revokedAt.value <= t
    case InstrumentExpired =>
      customer.Some? && rail.payBy == "card" && w.instrumentDraw(customer.value.id) < w.instrumentExpiredRate
    case IssuerUnavailable => Holds(w.path(rail), t, Down) && Misses(w, rail, Down, key)
    case IssuerDegraded => Holds(w.path(rail), t, Degraded) && Misses(w, rail, Degraded, key)
    case DeclinedByIssuer => Holds(w.path(rail), t, Healthy) && Misses(w, rail, Healthy, key)
    case InsufficientFunds =>
      customer.Some? && ShortOfFunds(w, customer.value, t)
  }

  /** The draw for the time's balance bucket is below the risk at its wall-clock reading. */
  ghost predicate ShortOfFunds(w: World, customer: Customer, t: real)
    requires 1 <= customer.payday <= 28
  {
    exists bucket: int, local: Local ::
      Falls(w, t, bucket, local)
      && w.fundsDraw(customer.id, bucket) <
         InsufficientFundsProbability(w.cycle, customer.pressure, local, customer.payday)
  }

  /** The balance bucket and the wall-clock reading that a time falls into. */
  ghost predicate Falls(w: World, t: real, bucket: int, local: Local) {
    && bucket as real * w.bucketSeconds <= t < (bucket + 1) as real * w.bucketSeconds
    && local.Valid() && local.Instant() == w.startsAt + t / 86400.0
  }

  lemma FallsOnce(w: World, t: real, bucket: int, local: Local)
    requires w.Valid() && t >= 0.0
    ensures Falls(w, t, bucket, local) <==> bucket == w.Bucket(t) && local == w.Reading(t)
  {
    hide DaysInMonth, MonthStart, LocalAt, Local.Instant;
    BucketOnce(t, w.bucketSeconds, bucket);
    ReadOnce(w.startsAt + t / 86400.0, local);
  }

  lemma BucketOnce(t: real, size: real, bucket: int)
    requires size > 0.0
    ensures bucket as real * size <= t < (bucket + 1) as real * size <==> bucket == (t / size).Floor
  {
    var q := t / size;
    assert q * size == t;
    FloorBetween(q, t, size, bucket);
  }

  lemma ReadOnce(instant: real, local: Local)
    requires instant >= 0.0
    ensures local.Valid() && local.Instant() == instant <==> local == LocalAt(instant)
  {
    hide DaysInMonth, MonthStart, Local.Instant;
    if local.Valid() && local.Instant() == instant {
      ReadingsAreOrdered(local, LocalAt(instant));
    }
  }

  lemma FloorBetween(q: real, t: real, size: real, n: int)
    requires size > 0.0 && q * size == t
    ensures n as real * size <= t < (n + 1) as real * size <==> n == q.Floor
  {
    Ordered(n as real, q, t, size);
    Ordered((n + 1) as real, q, t, size);
  }

  lemma Ordered(x: real, y: real, t: real, size: real)
    requires size > 0.0 && y * size == t
    ensures x * size <= t <==> x <= y
  {
    if x <= y {
      assert (y - x) * size >= 0.0;
    } else {
      assert (x - y) * size > 0.0;
    }
  }

  /** Of the causes that hold at once, the one of least rank is reported. */
  function Rank(cause: FailureCause): nat {
    match cause
    case MandateRevoked => 0
    case MandateExpired => 1
    case InstrumentExpired => 2
    case IssuerUnavailable => 3
    case IssuerDegraded => 3
    case DeclinedByIssuer => 3
    case InsufficientFunds => 4
  }

  /** An attempt succeeds exactly when nothing stands in its way, and otherwise fails with the first of what does. The
      three causes of the rail exclude each other: its path is in one state at a time. */
  lemma OutcomeIff(w: World, customer: Option<Customer>, rail: Rail, mandate: Option<Mandate>, t: real,
                   key: AttemptKey, cause: FailureCause)
    requires w.Valid() && t >= 0.0 && ValidCustomer(customer)
    ensures var outcome := Evaluate(w, customer, rail, mandate, t, key);
            && (outcome.Success? <==> forall c :: !Obstructs(c, w, customer, rail, mandate, t, key))
            && (outcome == Failed(cause) <==>
                  && Obstructs(cause, w, customer, rail, mandate, t, key)
                  && forall c :: Obstructs(c, w, customer, rail, mandate, t, key) ==>
                        c == cause || Rank(cause) < Rank(c))
  {
    hide At, Holds, BalanceShort, ShortOfFunds;
    HoldsIff(w.path(rail), t, Down);
    HoldsIff(w.path(rail), t, Degraded);
    HoldsIff(w.path(rail), t, Healthy);
    if customer.Some? {
      ShortIff(w, customer.value, t);
    }
    var outcome := Evaluate(w, customer, rail, mandate, t, key);
    if outcome.Failed? {
      assert Obstructs(outcome.cause, w, customer, rail, mandate, t, key);
    }
  }

  lemma ShortIff(w: World, customer: Customer, t: real)
    requires w.Valid() && t >= 0.0 && ValidCustomer(Some(customer))
    ensures ShortOfFunds(w, customer, t) <==> BalanceShort(w, customer, t)
  {
    hide Falls, InsufficientFundsProbability;
    forall bucket: int, local: Local
      ensures Falls(w, t, bucket, local) <==> bucket == w.Bucket(t) && local == w.Reading(t)
    {
      FallsOnce(w, t, bucket, local);
    }
    if BalanceShort(w, customer, t) {
      assert Falls(w, t, w.Bucket(t), w.Reading(t));
    }
  }

  /** With nothing else against it, an attempt succeeds exactly when its draw is below what the state of the rail
      leaves of the method's success rate. */
  lemma GuestSucceedsIff(w: World, rail: Rail, t: real, key: AttemptKey)
    requires w.Valid() && t >= 0.0
    ensures Evaluate(w, None, rail, None, t, key) == Success <==>
            exists state :: Holds(w.path(rail), t, state) && !Misses(w, rail, state, key)
  {
    hide At, Holds;
    HoldsIff(w.path(rail), t, At(w.path(rail), t));
    forall state ensures Holds(w.path(rail), t, state) <==> At(w.path(rail), t) == state {
      HoldsIff(w.path(rail), t, state);
    }
  }

  /** A success stays one wherever nothing has got worse: the mandate still lives, no draw is less lucky, the method
      fails no more often, the rail's state lets no less through, and the account is no more at risk. */
  lemma LuckierStillSucceeds(w: World, customer: Option<Customer>, rail: Rail, mandate: Option<Mandate>, t: real,
                             key: AttemptKey, w': World, rail': Rail, t': real, key': AttemptKey)
    requires w.Valid() && w'.Valid() && t >= 0.0 && t' >= 0.0 && ValidCustomer(customer)
    requires Evaluate(w, customer, rail, mandate, t, key) == Success
    requires mandate.Some? ==> !mandate.value.IsDeadAt(t')
    requires customer.Some? && rail'.payBy == "card" ==>
               rail.payBy == "card" && w.instrumentDraw(customer.value.id) <= w'.instrumentDraw(customer.value.id)
               && w'.instrumentExpiredRate <= w.instrumentExpiredRate
    requires w'.railDraw(key') <= w.railDraw(key)
    requires w'.baseFailureRate(rail'.payBy) <= w.baseFailureRate(rail.payBy) <= 1.0
    requires 0.0 <= w.multiplier(At(w.path(rail), t)) <= w'.multiplier(At(w'.path(rail'), t'))
    requires customer.Some? ==>
               && w.fundsDraw(customer.value.id, w.Bucket(t)) <= w'.fundsDraw(customer.value.id, w'.Bucket(t'))
               && FundsRisk(w', customer.value, t') <= FundsRisk(w, customer.value, t)
    ensures Evaluate(w', customer, rail', mandate, t', key') == Success
  {
    hide At, FundsRisk;
    ProductGrows(1.0 - w.baseFailureRate(rail.payBy), w.multiplier(At(w.path(rail), t)),
                 1.0 - w'.baseFailureRate(rail'.payBy), w'.multiplier(At(w'.path(rail'), t')));
  }

  lemma ProductGrows(x: real, y: real, x': real, y': real)
    requires 0.0 <= x <= x' && 0.0 <= y <= y'
    ensures x * y <= x' * y'
  {
    assert x * y <= x * y';
    assert x * y' <= x' * y';
  }

  // ---- where another rail helps ---------------------------------------------------

  /** A dead card is dead for the whole run: on every card rail, at every time, under every draw, the customer fails,
      for the card unless for the mandate. */
  lemma DeadCardStaysDead(w: World, customer: Customer, mandate: Option<Mandate>, rail: Rail, t: real, key: AttemptKey,
                          rail': Rail, t': real, key': AttemptKey)
    requires w.Valid() && t >= 0.0 && t' >= 0.0 && ValidCustomer(Some(customer))
    requires Evaluate(w, Some(customer), rail, mandate, t, key) == Failed(InstrumentExpired)
    ensures rail.payBy == "card"
    ensures rail'.payBy == "card" ==>
              Evaluate(w, Some(customer), rail', mandate, t', key') ==
              Failed(if mandate.Some? && mandate.value.IsDeadAt(t')
                     then (if mandate.value.StateAt(t') == Revoked then MandateRevoked else MandateExpired)
                     else InstrumentExpired)
  {
  }

  /** Another rail could have taken the payment at the very same moment. */
  ghost predicate AnotherRailHelps(cause: FailureCause) {
    exists w: World, customer: Option<Customer>, mandate: Option<Mandate>, rail: Rail, rail': Rail, t: real,
           key: AttemptKey, key': AttemptKey ::
      && w.Valid() && t >= 0.0 && ValidCustomer(customer)
      && Evaluate(w, customer, rail, mandate, t, key) == Failed(cause)
      && Evaluate(w, customer, rail', mandate, t, key') == Success
  }

  /** A world in which UPI always works, and a card does only as well as the state of its path, or of the card. */
  function TwoRails(state: RailState, deadCards: bool): World {
    World(0.0, 1.0,
          (rail: Rail) => Trajectory([0.0], [if rail.payBy == "card" then state else Healthy]),
          payBy => if payBy == "card" && !deadCards then 1.0 else 0.0,
          s => 1.0,
          if deadCards then 1.0 else 0.0,
          SalaryCycle(0.0, 0.0, 0),
          1.0,
          key => 0.5,
          id => 0.5,
          (id: string, bucket: int) => 2.0)
  }

  lemma CardFailsUpiWorks(cause: FailureCause)
    requires cause.IsRailSpecific()
    ensures AnotherRailHelps(cause)
  {
    var state := match cause
      case IssuerUnavailable => Down
      case IssuerDegraded => Degraded
      case _ => Healthy;
    var w := TwoRails(state, cause == InstrumentExpired);
    var key := Attempted("order", 1);
    var customer := if cause == InstrumentExpired then Some(Customer("payer", 1, 1.0)) else None;
    var card, upi := Rail("issuer", "card"), Rail("issuer", "upi");
    assert w.Valid();
    assert Evaluate(w, customer, card, None, 0.0, key) == Failed(cause);
    assert Evaluate(w, customer, upi, None, 0.0, key) == Success;
  }

  /** Exactly the rail's own causes, and a dead card, leave another rail worth trying. */
  lemma AnotherRailHelpsIff(cause: FailureCause)
    ensures AnotherRailHelps(cause) <==> cause.IsRailSpecific()
  {
    if cause.IsRailSpecific() {
      CardFailsUpiWorks(cause);
    }
  }
}
