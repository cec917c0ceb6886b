/** Issuer stress and rail health. */
module RailSimulation {
  // Two levels of Markov chain.

  import opened Trajectories

  const SECONDS_PER_DAY: real := 86400.0
  const SECONDS_PER_HOUR: real := 3600.0

  datatype IssuerState = Normal | Stressed
  datatype RailState = Healthy | Degraded | Down

  /** The sequential generator: the n-th exponential draw has mean one until scaled by a rate, the n-th
      uniform draw lies in [0, 1). */
  datatype Draws = Draws(unit: nat -> real, coin: nat -> real)

  function PartialSum(unit: nat -> real, from: nat, upto: nat): real
    decreases upto - from
  {
    if from >= upto then 0.0 else unit(from) + PartialSum(unit, from + 1, upto)
  }

  ghost predicate Exceeds(unit: nat -> real, from: nat, bound: real) {
    exists upto: nat :: PartialSum(unit, from, upto) > bound
  }

  /** Positive waits whose sum has no bound. Exponential draws have this almost surely; without it the
      simulated clock could creep up on a time it never passes. */
  ghost predicate Unbounded(unit: nat -> real) {
    && (forall n: nat :: unit(n) > 0.0)
    && (forall from: nat, bound: real :: Exceeds(unit, from, bound))
  }

  /** Waits bounded away from zero suffice. */
  lemma BoundedBelowIsUnbounded(unit: nat -> real, delta: real)
    requires delta > 0.0 && forall n: nat :: unit(n) >= delta
    ensures Unbounded(unit)
  {
    forall from: nat, bound: real ensures Exceeds(unit, from, bound) {
      var q := bound / delta;
      var steps: int := if bound < 0.0 then 1 else q.Floor + 1;
      assert q * delta == bound;
      assert steps as real > q;
      BeyondQuotient(steps as real, q, delta);
      assert steps as real * delta > bound;
      PartialSumAtLeast(unit, delta, from, from + steps);
    }
  }

  lemma BeyondQuotient(steps: real, q: real, delta: real)
    requires steps > q && delta > 0.0
    ensures steps * delta > q * delta
  {
    assert (steps - q) * delta > 0.0;
  }

  lemma {:induction false} PartialSumAtLeast(unit: nat -> real, delta: real, from: nat, upto: nat)
    requires forall n: nat :: unit(n) >= delta
    requires from <= upto
    ensures PartialSum(unit, from, upto) >= (upto - from) as real * delta
    decreases upto - from
  {
    if from < upto {
      PartialSumAtLeast(unit, delta, from + 1, upto);
      assert (upto - from) as real * delta == (upto - (from + 1)) as real * delta + delta;
    }
  }

  /** A draw at rate `rate`, started at `t`, arrives here. */
  function Arrival(t: real, unit: real, rate: real): real
    requires rate > 0.0
  {
    t + unit / rate
  }

  // ---- the issuer chain ----------------------------------------------------

  function Alternating<S>(first: S, second: S, i: nat): S {
    if i % 2 == 0 then first else second
  }

  /** Stretch `i` lasts as long as its own scaled draw says. */
  ghost predicate Lasts(times: seq<real>, i: nat, unit: nat -> real, firstRate: real, secondRate: real)
    requires firstRate > 0.0 && secondRate > 0.0 && i + 1 < |times|
  {
    times[i + 1] == Arrival(times[i], unit(i), Alternating(firstRate, secondRate, i))
  }

  /** Alternating states from zero, each held for its own scaled draw, all transitions below the horizon. */
  ghost predicate IsTwoStatePrefix<S>(path: Trajectory<S>, unit: nat -> real, horizon: real,
                                      firstRate: real, secondRate: real, first: S, second: S)
    requires firstRate > 0.0 && secondRate > 0.0
  {
    && path.Valid()
    && (forall i :: 0 <= i < |path.states| ==> path.states[i] == Alternating(first, second, i))
    && (forall i :: 0 < i < |path.times| ==> path.times[i] < horizon)
    && (forall i :: 0 <= i < |path.times| - 1 ==> Lasts(path.times, i, unit, firstRate, secondRate))
  }

  /** The one path these draws determine: it is cut off at the first arrival not below the horizon. */
  ghost predicate IsTwoStatePath<S>(path: Trajectory<S>, unit: nat -> real, horizon: real,
                                    firstRate: real, secondRate: real, first: S, second: S)
    requires firstRate > 0.0 && secondRate > 0.0
  {
    && IsTwoStatePrefix(path, unit, horizon, firstRate, secondRate, first, second)
    && var last := |path.times| - 1;
       Arrival(path.times[last], unit(last), Alternating(firstRate, secondRate, last)) >= horizon
  }

  lemma ExtendTwoState<S>(path: Trajectory<S>, unit: nat -> real, horizon: real,
                          firstRate: real, secondRate: real, first: S, second: S, t: real, state: S)
    requires firstRate > 0.0 && secondRate > 0.0
    requires IsTwoStatePrefix(path, unit, horizon, firstRate, secondRate, first, second)
    requires path.times[|path.times| - 1] < t < horizon
    requires t == Arrival(path.times[|path.times| - 1], unit(|path.times| - 1),
                          Alternating(firstRate, secondRate, |path.times| - 1))
    requires state == Alternating(first, second, |path.times|)
    ensures IsTwoStatePrefix(Trajectory(path.times + [t], path.states + [state]), unit, horizon,
                             firstRate, secondRate, first, second)
  {
    var times := path.times + [t];
    forall i | 0 <= i < |times| - 1 ensures Lasts(times, i, unit, firstRate, secondRate) {
      if i < |path.times| - 1 {
        assert Lasts(path.times, i, unit, firstRate, secondRate);
      }
    }
  }

  method SimulateTwoState<S(==)>(unit: nat -> real, horizon: real, firstRate: real, secondRate: real, first: S,
                                 second: S)
    returns (path: Trajectory<S>)
    requires firstRate > 0.0 && secondRate > 0.0 && first != second
    requires Unbounded(unit)
    ensures IsTwoStatePath(path, unit, horizon, firstRate, secondRate, first, second)
  {
    var times, states := [0.0], [first];
    var t, current, drawn := 0.0, first, 0;
    ghost var cap := Larger(firstRate, secondRate);
    ghost var limit: nat := CanAfford(unit, 0, cap, horizon);
    while true
      invariant IsTwoStatePrefix(Trajectory(times, states), unit, horizon, firstRate, secondRate, first, second)
      invariant |times| == drawn + 1 && t == times[drawn] && current == Alternating(first, second, drawn)
      invariant Affordable(unit, drawn, limit, cap, horizon - t)
      decreases limit - drawn
    {
      var rate := if current == first then firstRate else secondRate;
      ghost var before := t;
      t := Arrival(t, unit(drawn), rate);
      if t >= horizon {
        break;
      }
      Spend(unit, drawn, limit, cap, rate, before, horizon);
      current := if current == first then second else first;
      ExtendTwoState(Trajectory(times, states), unit, horizon, firstRate, secondRate, first, second, t, current);
      times := times + [t];
      states := states + [current];
      drawn := drawn + 1;
    }
    path := Trajectory(times, states);
  }

  function Larger(a: real, b: real): real {
    if a >= b then a else b
  }

  /** The draws up to `limit` are worth more than what is left of the horizon, at the fastest rate. */
  ghost predicate Affordable(unit: nat -> real, drawn: nat, limit: nat, cap: real, left: real) {
    PartialSum(unit, drawn, limit) > cap * left
  }

  /** One arrival uses up one draw's worth of what is left. */
  lemma Spend(unit: nat -> real, drawn: nat, limit: nat, cap: real, rate: real, t: real, horizon: real)
    requires 0.0 < rate <= cap && unit(drawn) > 0.0
    requires Affordable(unit, drawn, limit, cap, horizon - t)
    requires Arrival(t, unit(drawn), rate) < horizon
    ensures drawn < limit && t < Arrival(t, unit(drawn), rate)
    ensures Affordable(unit, drawn + 1, limit, cap, horizon - Arrival(t, unit(drawn), rate))
  {
    var w, left := unit(drawn) / rate, horizon - t;
    assert w > 0.0;
    assert cap * left > 0.0;
    assert w * rate == unit(drawn);
    assert cap * w >= rate * w;
    assert cap * (left - w) == cap * left - cap * w;
    assert left - w == horizon - Arrival(t, unit(drawn), rate);
  }

  lemma CanAfford(unit: nat -> real, drawn: nat, cap: real, left: real) returns (limit: nat)
    requires Unbounded(unit)
    ensures Affordable(unit, drawn, limit, cap, left)
  {
    assert Exceeds(unit, drawn, cap * left);
    limit :| PartialSum(unit, drawn, limit) > cap * left;
  }

  // ---- the rail chain ------------------------------------------------------

  datatype Settings = Settings(healthyToDegradedPerDay: real, degradedToDownPerHour: real,
                               degradedToHealthyPerHour: real, downToDegradedPerHour: real,
                               stressMultiplier: real, reliability: real) {
    predicate Valid() {
      && healthyToDegradedPerDay > 0.0 && degradedToDownPerHour > 0.0
      && degradedToHealthyPerHour > 0.0 && downToDegradedPerHour > 0.0
      && stressMultiplier >= 1.0 && reliability > 0.0
    }
  }

  /** The transitions out of a state, with their per-second rates. Stress speeds onset and slows recovery. */
  function Competing(s: Settings, state: RailState, stressed: bool): seq<(real, RailState)>
    requires s.Valid()
  {
    var onset := if stressed then s.stressMultiplier else 1.0;
    var recovery := if stressed then 1.0 / s.stressMultiplier else 1.0;
    match state
    case Healthy => [(s.healthyToDegradedPerDay / SECONDS_PER_DAY * s.reliability * onset, Degraded)]
    case Degraded => [(s.degradedToDownPerHour / SECONDS_PER_HOUR * onset, Down),
                      (s.degradedToHealthyPerHour / SECONDS_PER_HOUR * recovery, Healthy)]
    case Down => [(s.downToDegradedPerHour / SECONDS_PER_HOUR * recovery, Degraded)]
  }

  function SumRates(competing: seq<(real, RailState)>): real {
    if competing == [] then 0.0 else competing[0].0 + SumRates(competing[1..])
  }

  function TotalRate(s: Settings, state: RailState, stressed: bool): (total: real)
    requires s.Valid()
  {
    SumRates(Competing(s, state, stressed))
  }

  /** Every rate out of every state is positive and under one cap. */
  lemma RatesPositive(s: Settings, state: RailState, stressed: bool)
    requires s.Valid()
    ensures TotalRate(s, state, stressed) > 0.0
    ensures forall i :: 0 <= i < |Competing(s, state, stressed)| ==> Competing(s, state, stressed)[i].0 > 0.0
  {
    var c := Competing(s, state, stressed);
    var recovery := if stressed then 1.0 / s.stressMultiplier else 1.0;
    var onset := if stressed then s.stressMultiplier else 1.0;
    assert recovery > 0.0;
    Positive(s.healthyToDegradedPerDay / SECONDS_PER_DAY, s.reliability);
    Positive(s.healthyToDegradedPerDay / SECONDS_PER_DAY * s.reliability, onset);
    Positive(s.degradedToDownPerHour / SECONDS_PER_HOUR, onset);
    Positive(s.degradedToHealthyPerHour / SECONDS_PER_HOUR, recovery);
    Positive(s.downToDegradedPerHour / SECONDS_PER_HOUR, recovery);
    assert SumRates(c[1..]) == if |c| == 1 then 0.0 else c[1].0 + SumRates(c[1..][1..]);
    assert |c| == 2 ==> c[1..][1..] == [];
  }

  lemma Positive(a: real, b: real)
    requires a > 0.0 && b > 0.0
    ensures a * b > 0.0
  {
  }

  function Cap(s: Settings): real
    requires s.Valid()
  {
    Larger(TotalRate(s, Healthy, false), Larger(TotalRate(s, Healthy, true),
    Larger(TotalRate(s, Degraded, false), Larger(TotalRate(s, Degraded, true),
    Larger(TotalRate(s, Down, false), TotalRate(s, Down, true))))))
  }

  /** `i` is the entry into whose share of the total rate the target falls. */
  ghost predicate FallsInto(competing: seq<(real, RailState)>, target: real, i: nat) {
    && i < |competing|
    && (forall j :: 0 <= j <= i ==> SumRates(competing[..j]) <= target)
    && target < SumRates(competing[..i]) + competing[i].0
  }

  lemma {:induction false} SumRatesSnoc(competing: seq<(real, RailState)>, i: nat)
    requires i < |competing|
    ensures SumRates(competing[..i + 1]) == SumRates(competing[..i]) + competing[i].0
  {
    if i > 0 {
      SumRatesSnoc(competing[1..], i - 1);
      assert competing[..i + 1][1..] == competing[1..][..i];
      assert competing[..i][1..] == competing[1..][..i - 1];
    }
  }

  /** Where a coin in [0, 1) lands on the total rate. */
  function Target(coin: real, total: real): real {
    coin * total
  }

  ghost predicate Picks(competing: seq<(real, RailState)>, target: real, chosen: RailState) {
    exists i: nat :: FallsInto(competing, target, i) && chosen == competing[i].1
  }

  /** Which of the competing transitions fired. The last one is the default the loop never needs. */
  method Choose(competing: seq<(real, RailState)>, target: real) returns (chosen: RailState)
    requires 0.0 <= target < SumRates(competing)
    ensures Picks(competing, target, chosen)
  {
    chosen := competing[|competing| - 1].1;
    var cumulative := 0.0;
    assert competing[..|competing|] == competing;
    for i := 0 to |competing|
      invariant cumulative == SumRates(competing[..i])
      invariant forall j :: 0 <= j <= i ==> SumRates(competing[..j]) <= target
    {
      SumRatesSnoc(competing, i);
      cumulative := cumulative + competing[i].0;
      if target < cumulative {
        assert FallsInto(competing, target, i);
        return competing[i].1;
      }
    }
    assert false;
  }

  // ---- what a run of the rail chain is ------------------------------------

  /** One pass of the simulation loop: where it stood, the arrival it drew, and when the rates next change. */
  datatype Pass = Pass(start: real, state: RailState, stressed: bool, arrives: real, change: real,
                       destination: RailState)

  ghost predicate IsNextChange(issuer: Trajectory<IssuerState>, horizon: real, t: real, change: real) {
    && (forall j :: 0 <= j < |issuer.times| ==> issuer.times[j] <= t || change <= issuer.times[j])
    && ((t < change && change in issuer.times)
        || (change == horizon && forall j :: 0 <= j < |issuer.times| ==> issuer.times[j] <= t))
  }

  /** The pass drew its arrival at the rate in force where it stood, and names the transition its coin picked. */
  ghost predicate PassFollows(p: Pass, n: nat, s: Settings, issuer: Trajectory<IssuerState>, draws: Draws,
                              horizon: real)
    requires s.Valid() && issuer.Valid()
  {
    var total := TotalRate(s, p.state, p.stressed);
    && 0.0 <= p.start < horizon
    && p.stressed == (At(issuer, p.start) == Stressed)
    && total > 0.0
    && p.arrives == Arrival(p.start, draws.unit(n), total)
    && p.start < p.arrives
    && IsNextChange(issuer, horizon, p.start, p.change)
    && (Fires(p, horizon) ==> Picks(Competing(s, p.state, p.stressed), Target(draws.coin(n), total), p.destination))
    && (!Fires(p, horizon) ==> p.destination == p.state)
  }

  ghost predicate Fires(p: Pass, horizon: real) {
    p.arrives <= p.change && p.arrives < horizon
  }

  ghost predicate Redraws(p: Pass, horizon: real) {
    p.change < p.arrives && p.change < horizon
  }

  /** Where the next pass stands, if there is one. */
  ghost predicate Reaches(run: seq<Pass>, t: real, state: RailState, horizon: real) {
    if run == [] then t == 0.0 && state == Healthy
    else
      var p := run[|run| - 1];
      if Fires(p, horizon) then t == p.arrives && state == p.destination
      else Redraws(p, horizon) && t == p.change && state == p.state
  }

  ghost predicate IsRunPrefix(run: seq<Pass>, s: Settings, issuer: Trajectory<IssuerState>, draws: Draws, horizon: real)
    requires s.Valid() && issuer.Valid()
  {
    run != [] ==>
      var n := |run| - 1;
      && IsRunPrefix(run[..n], s, issuer, draws, horizon)
      && Reaches(run[..n], run[n].start, run[n].state, horizon)
      && PassFollows(run[n], n, s, issuer, draws, horizon)
  }

  /** A complete run: it stops only when neither an arrival nor a rate change falls below the horizon. */
  ghost predicate IsRun(run: seq<Pass>, s: Settings, issuer: Trajectory<IssuerState>, draws: Draws, horizon: real)
    requires s.Valid() && issuer.Valid()
  {
    && IsRunPrefix(run, s, issuer, draws, horizon)
    && (run == [] <==> horizon <= 0.0)
    && (run != [] ==> !Fires(run[|run| - 1], horizon) && !Redraws(run[|run| - 1], horizon))
  }

  /** The trajectory a run leaves behind: one entry for every arrival that fired. */
  ghost function PathOf(run: seq<Pass>, horizon: real): Trajectory<RailState> {
    if run == [] then Trajectory([0.0], [Healthy])
    else
      var p, before := run[|run| - 1], PathOf(run[..|run| - 1], horizon);
      if Fires(p, horizon) then Trajectory(before.times + [p.arrives], before.states + [p.destination])
      else before
  }

  lemma ExtendRun(run: seq<Pass>, p: Pass, s: Settings, issuer: Trajectory<IssuerState>, draws: Draws, horizon: real)
    requires s.Valid() && issuer.Valid()
    requires IsRunPrefix(run, s, issuer, draws, horizon)
    requires Reaches(run, p.start, p.state, horizon)
    requires PassFollows(p, |run|, s, issuer, draws, horizon)
    ensures IsRunPrefix(run + [p], s, issuer, draws, horizon)
    ensures PathOf(run + [p], horizon)
         == if Fires(p, horizon)
            then Trajectory(PathOf(run, horizon).times + [p.arrives], PathOf(run, horizon).states + [p.destination])
            else PathOf(run, horizon)
  {
    assert (run + [p])[..|run|] == run;
  }

  /** The arrival drawn at the current total rate comes strictly later, and the rate is under the cap. */
  lemma ArrivesLater(s: Settings, state: RailState, stressed: bool, t: real, unit: real, coin: real)
    requires s.Valid() && unit > 0.0 && 0.0 <= coin < 1.0
    ensures 0.0 < TotalRate(s, state, stressed) <= Cap(s)
    ensures t < Arrival(t, unit, TotalRate(s, state, stressed))
    ensures 0.0 <= Target(coin, TotalRate(s, state, stressed)) < TotalRate(s, state, stressed)
  {
    RatesPositive(s, state, stressed);
    hide TotalRate, Arrival, Target;
    ArrivalIsLater(t, unit, TotalRate(s, state, stressed));
    TargetIsBelow(coin, TotalRate(s, state, stressed));
  }

  lemma ArrivalIsLater(t: real, unit: real, rate: real)
    requires unit > 0.0 && rate > 0.0
    ensures t < Arrival(t, unit, rate)
  {
    assert unit / rate > 0.0;
  }

  lemma TargetIsBelow(coin: real, rate: real)
    requires 0.0 <= coin < 1.0 && rate > 0.0
    ensures 0.0 <= Target(coin, rate) < rate
  {
    Scale(coin, rate);
  }

  /** Every issuer transition before this index has happened. */
  ghost predicate Passed(issuer: Trajectory<IssuerState>, next: nat, t: real) {
    forall j :: 0 <= j < next && j < |issuer.times| ==> issuer.times[j] <= t
  }

  /** Walks the issuer index past `t`, in step with the rail simulation. */
  method NextChange(issuer: Trajectory<IssuerState>, horizon: real, t: real, start: nat)
    returns (next: nat, change: real)
    requires issuer.Valid() && Passed(issuer, start, t)
    ensures Passed(issuer, next, t) && IsNextChange(issuer, horizon, t, change)
    ensures t < horizon ==> t < change
  {
    next := start;
    while next < |issuer.times| && issuer.times[next] <= t
      invariant Passed(issuer, next, t)
    {
      next := next + 1;
    }
    change := if next < |issuer.times| then issuer.times[next] else horizon;
  }

  /** The path some complete run leaves behind. */
  ghost predicate IsRailPath(path: Trajectory<RailState>, s: Settings, issuer: Trajectory<IssuerState>, draws: Draws,
                             horizon: real)
    requires s.Valid() && issuer.Valid()
  {
    exists run :: IsRun(run, s, issuer, draws, horizon) && path == PathOf(run, horizon)
  }

  method SimulateRail(s: Settings, issuer: Trajectory<IssuerState>, draws: Draws, horizon: real)
    returns (path: Trajectory<RailState>)
    requires s.Valid() && issuer.Valid()
    requires Unbounded(draws.unit) && forall n: nat :: 0.0 <= draws.coin(n) < 1.0
    ensures IsRailPath(path, s, issuer, draws, horizon)
  {
    hide Competing, Cap, SumRates, Ahead, Affordable, Arrival, Target, IsNextChange, At, Picks;
    var times, states := [0.0], [Healthy];
    var t, current := 0.0, Healthy;
    var next := 1;
    var drawn: nat := 0;
    ghost var run: seq<Pass> := [];
    ghost var cap := Cap(s);
    ghost var limit: nat := CanAfford(draws.unit, 0, cap, horizon);
    while t < horizon
      invariant |run| == drawn && IsRunPrefix(run, s, issuer, draws, horizon)
      invariant Trajectory(times, states) == PathOf(run, horizon)
      invariant Reaches(run, t, current, horizon)
      invariant 0.0 <= t && (run != [] ==> t < horizon)
      invariant Passed(issuer, next, t)
      invariant Affordable(draws.unit, drawn, limit, cap, horizon - t)
      decreases Ahead(issuer, t), limit - drawn
    {
      var stressed := At(issuer, t) == Stressed;
      var competing := Competing(s, current, stressed);
      var total := SumRates(competing);
      assert total == TotalRate(s, current, stressed);
      ArrivesLater(s, current, stressed, t, draws.unit(drawn), draws.coin(drawn));
      var arrives := Arrival(t, draws.unit(drawn), total);

      var change;
      next, change := NextChange(issuer, horizon, t, next);

      if arrives > change {
        ghost var p := Pass(t, current, stressed, arrives, change, current);
        ExtendRun(run, p, s, issuer, draws, horizon);
        run := run + [p];
        t := change;
        if t >= horizon {
          break;
        }
        drawn := drawn + 1;
        AheadShrinks(issuer, horizon, p.start, t, change);
        limit := CanAfford(draws.unit, drawn, cap, horizon - t);
        continue;
      }

      if arrives >= horizon {
        ghost var p := Pass(t, current, stressed, arrives, change, current);
        ExtendRun(run, p, s, issuer, draws, horizon);
        run := run + [p];
        break;
      }

      var target := Target(draws.coin(drawn), total);
      var chosen := Choose(competing, target);
      ghost var p := Pass(t, current, stressed, arrives, change, chosen);
      Spend(draws.unit, drawn, limit, cap, total, t, horizon);
      ExtendRun(run, p, s, issuer, draws, horizon);
      run := run + [p];
      t := arrives;
      current := chosen;
      times := times + [t];
      states := states + [current];
      drawn := drawn + 1;
      AheadShrinks(issuer, horizon, p.start, t, change);
    }
    path := Trajectory(times, states);
    assert IsRun(run, s, issuer, draws, horizon);
  }

  /** How many issuer transitions are still ahead. */
  ghost function Ahead(issuer: Trajectory<IssuerState>, t: real): nat
    requires issuer.Valid()
  {
    |issuer.times| - BisectRight(issuer.times, t, 0, |issuer.times|)
  }

  lemma AheadShrinks(issuer: Trajectory<IssuerState>, horizon: real, t: real, later: real, change: real)
    requires issuer.Valid() && t <= later
    requires IsNextChange(issuer, horizon, t, change)
    ensures Ahead(issuer, later) <= Ahead(issuer, t)
    ensures later == change && change < horizon ==> Ahead(issuer, later) < Ahead(issuer, t)
  {
    var k, m := BisectRight(issuer.times, t, 0, |issuer.times|), BisectRight(issuer.times, later, 0, |issuer.times|);
    assert m == |issuer.times| || later < issuer.times[m];
    if later == change && change < horizon {
      var j :| 0 <= j < |issuer.times| && issuer.times[j] == change;
      assert k <= j < m;
    }
  }

  lemma Scale(c: real, total: real)
    requires 0.0 <= c < 1.0 && total > 0.0
    ensures 0.0 <= c * total < total
  {
  }

  // ---- what every run keeps --------------------------------------------------

  predicate Adjacent(a: RailState, b: RailState) {
    (a == Degraded) != (b == Degraded)
  }

  /** Times increase strictly from zero and stay below the horizon, and every transition moves one step
      along healthy, degraded, down. */
  lemma {:induction false} PathIsSound(run: seq<Pass>, s: Settings, issuer: Trajectory<IssuerState>, draws: Draws,
                                       horizon: real)
    requires s.Valid() && issuer.Valid()
    requires IsRunPrefix(run, s, issuer, draws, horizon)
    ensures PathOf(run, horizon).Valid()
    ensures forall i :: 0 < i < |PathOf(run, horizon).times| ==> PathOf(run, horizon).times[i] < horizon
    ensures forall i :: 0 <= i < |PathOf(run, horizon).states| - 1 ==>
              Adjacent(PathOf(run, horizon).states[i], PathOf(run, horizon).states[i + 1])
    ensures forall t, state :: Reaches(run, t, state, horizon) ==>
              var path := PathOf(run, horizon);
              path.times[|path.times| - 1] <= t && path.states[|path.states| - 1] == state
  {
    if run != [] {
      var n := |run| - 1;
      var p := run[n];
      PathIsSound(run[..n], s, issuer, draws, horizon);
      assert Reaches(run[..n], p.start, p.state, horizon);
      if Fires(p, horizon) {
        MovesOneStep(s, p, Target(draws.coin(n), TotalRate(s, p.state, p.stressed)));
      }
    }
  }

  lemma MovesOneStep(s: Settings, p: Pass, target: real)
    requires s.Valid() && Picks(Competing(s, p.state, p.stressed), target, p.destination)
    ensures Adjacent(p.state, p.destination)
  {
  }

  /** The issuer stays in one state from `a` up to `b`. */
  ghost predicate Steady(issuer: Trajectory<IssuerState>, a: real, b: real)
    requires issuer.Valid()
  {
    forall u :: a <= u < b ==> At(issuer, u) == At(issuer, a)
  }

  lemma SteadyUntilChange(issuer: Trajectory<IssuerState>, horizon: real, t: real, change: real)
    requires issuer.Valid() && 0.0 <= t && IsNextChange(issuer, horizon, t, change)
    ensures Steady(issuer, t, change)
  {
    var k := BisectRight(issuer.times, t, 0, |issuer.times|) - 1;
    forall u | t <= u < change ensures At(issuer, u) == At(issuer, t) {
      AtInsideStretch(issuer, k, t);
      AtInsideStretch(issuer, k, u);
    }
  }

  /** Pass `n` is the one that made transition `i`: it was drawn after transition `i - 1`, from a moment
      where rates were last (re)drawn, and the issuer did not change from there to the arrival. */
  ghost predicate Explains(run: seq<Pass>, n: nat, path: Trajectory<RailState>, i: nat,
                           issuer: Trajectory<IssuerState>, horizon: real)
    requires issuer.Valid() && n < |run| && 0 < i < |path.times| == |path.states|
  {
    var p := run[n];
    && Fires(p, horizon)
    && p.arrives == path.times[i] && p.destination == path.states[i] && p.state == path.states[i - 1]
    && path.times[i - 1] <= p.start < p.arrives
    && (p.start == path.times[i - 1] || p.start in issuer.times)
    && p.stressed == (At(issuer, p.start) == Stressed)
    && Steady(issuer, p.start, p.arrives)
  }

  /** No transition is ever drawn from stale rates: the issuer state each one was drawn under held over the
      whole stretch since the last redraw. */
  lemma {:induction false} RatesAreCurrent(run: seq<Pass>, s: Settings, issuer: Trajectory<IssuerState>, draws: Draws,
                                           horizon: real, i: nat) returns (n: nat)
    requires s.Valid() && issuer.Valid()
    requires IsRunPrefix(run, s, issuer, draws, horizon)
    requires 0 < i < |PathOf(run, horizon).times| == |PathOf(run, horizon).states|
    ensures n < |run| && Explains(run, n, PathOf(run, horizon), i, issuer, horizon)
  {
    var last := |run| - 1;
    var p, before := run[last], PathOf(run[..last], horizon);
    PathIsSound(run[..last], s, issuer, draws, horizon);
    if Fires(p, horizon) && i == |before.times| {
      n := last;
      assert Reaches(run[..last], p.start, p.state, horizon);
      RedrawnAt(run[..last], s, issuer, draws, horizon, p.start, p.state);
      SteadyUntilChange(issuer, horizon, p.start, p.change);
    } else {
      n := RatesAreCurrent(run[..last], s, issuer, draws, horizon, i);
      assert Explains(run[..last], n, before, i, issuer, horizon);
    }
  }

  /** A pass starts either at the last transition or at an issuer transition. */
  lemma {:induction false} RedrawnAt(run: seq<Pass>, s: Settings, issuer: Trajectory<IssuerState>, draws: Draws,
                                     horizon: real, t: real, state: RailState)
    requires s.Valid() && issuer.Valid()
    requires IsRunPrefix(run, s, issuer, draws, horizon)
    requires Reaches(run, t, state, horizon)
    ensures var times := PathOf(run, horizon).times; |times| > 0 && (t == times[|times| - 1] || t in issuer.times)
  {
    if run != [] {
      var p := run[|run| - 1];
      RedrawnAt(run[..|run| - 1], s, issuer, draws, horizon, p.start, p.state);
    }
  }

  // ---- what the rates come to ------------------------------------------------

  /** A product, named so that a proof can treat it as a number. */
  function Mul(x: real, y: real): real {
    x * y
  }

  /** How stress bears on a pass. */
  function Stress(s: Settings, stressed: bool): real {
    if stressed then s.stressMultiplier else 1.0
  }

  /** What a pass makes of its draws, in the calibrated units. Out of healthy it waits a unit draw's worth of days at
      the daily rate, which the issuer's reliability and stress scale; out of down, of hours at the hourly rate, which
      stress stretches. Out of degraded the odds of going down rather than healing are those of the two hourly rates,
      times the square of the stress. */
  ghost predicate Lawful(p: Pass, unit: real, coin: real, s: Settings, horizon: real) {
    var m, wait := Stress(s, p.stressed), p.arrives - p.start;
    match p.state
    case Healthy =>
      && Mul(wait, Mul(Mul(s.healthyToDegradedPerDay, s.reliability), m)) == 86400.0 * unit
      && (Fires(p, horizon) ==> p.destination == Degraded)
    case Down =>
      && Mul(wait, s.downToDegradedPerHour) == Mul(m, 3600.0 * unit)
      && (Fires(p, horizon) ==> p.destination == Degraded)
    case Degraded =>
      && Mul(wait, Mul(s.degradedToDownPerHour, Mul(m, m)) + s.degradedToHealthyPerHour) == Mul(m, 3600.0 * unit)
      && (Fires(p, horizon) ==>
            p.destination ==
            if Mul(coin, s.degradedToHealthyPerHour) < Mul(1.0 - coin, Mul(s.degradedToDownPerHour, Mul(m, m)))
            then Down else Healthy)
  }

  lemma PassIsLawful(p: Pass, n: nat, s: Settings, issuer: Trajectory<IssuerState>, draws: Draws, horizon: real)
    requires s.Valid() && issuer.Valid() && PassFollows(p, n, s, issuer, draws, horizon)
    ensures Lawful(p, draws.unit(n), draws.coin(n), s, horizon)
  {
    hide Competing, Picks, IsNextChange, At, Mul, Lawful, Arrival;
    match p.state
    case Healthy => HealthyIsLawful(p, draws.unit(n), draws.coin(n), s, horizon);
    case Down => DownIsLawful(p, draws.unit(n), draws.coin(n), s, horizon);
    case Degraded => DegradedIsLawful(p, draws.unit(n), draws.coin(n), s, horizon);
  }

  /** The pass took its arrival and its pick from the rates in force. */
  ghost predicate Drawn(p: Pass, unit: real, coin: real, s: Settings, horizon: real)
    requires s.Valid()
  {
    var total := TotalRate(s, p.state, p.stressed);
    && total > 0.0 && p.arrives == Arrival(p.start, unit, total)
    && (Fires(p, horizon) ==> Picks(Competing(s, p.state, p.stressed), Target(coin, total), p.destination))
  }

  lemma WaitTimesRate(start: real, unit: real, total: real, k: real, scaled: real)
    requires total > 0.0 && Mul(k, total) == scaled
    ensures Mul(Arrival(start, unit, total) - start, scaled) == Mul(k, unit)
  {
    var w := unit / total;
    assert w * total == unit;
    assert w * (k * total) == k * (w * total);
  }

  lemma Sum1(a: (real, RailState))
    ensures SumRates([a]) == a.0
    ensures SumRates([a][..0]) == 0.0
  {
    assert [a][1..] == [];
  }

  lemma Sum2(a: (real, RailState), b: (real, RailState))
    ensures SumRates([a, b]) == a.0 + b.0
    ensures SumRates([a, b][..0]) == 0.0 && SumRates([a, b][..1]) == a.0
  {
    assert [a, b][1..] == [b] && [a, b][..1] == [a];
    Sum1(a);
    Sum1(b);
  }

  lemma HealthyIsLawful(p: Pass, unit: real, coin: real, s: Settings, horizon: real)
    requires s.Valid() && p.state == Healthy && Drawn(p, unit, coin, s, horizon)
    ensures Lawful(p, unit, coin, s, horizon)
  {
    hide SumRates, Target, Arrival;
    var m := Stress(s, p.stressed);
    var c := Competing(s, Healthy, p.stressed);
    Sum1(c[0]);
    Hundredths(s.healthyToDegradedPerDay, s.reliability, m, 86400.0);
    WaitTimesRate(p.start, unit, c[0].0, 86400.0, Mul(Mul(s.healthyToDegradedPerDay, s.reliability), m));
  }

  lemma Hundredths(rate: real, reliability: real, m: real, k: real)
    requires k > 0.0
    ensures Mul(k, rate / k * reliability * m) == Mul(Mul(rate, reliability), m)
  {
    var q := rate / k;
    assert q * k == rate;
    assert k * (q * reliability * m) == q * k * reliability * m;
  }

  lemma DownIsLawful(p: Pass, unit: real, coin: real, s: Settings, horizon: real)
    requires s.Valid() && p.state == Down && Drawn(p, unit, coin, s, horizon)
    ensures Lawful(p, unit, coin, s, horizon)
  {
    hide SumRates, Target, Arrival;
    var m := Stress(s, p.stressed);
    var c := Competing(s, Down, p.stressed);
    Sum1(c[0]);
    Slowed(s.downToDegradedPerHour, m, 3600.0);
    WaitTimesRate(p.start, unit, c[0].0, Mul(m, 3600.0), s.downToDegradedPerHour);
    assert Mul(Mul(m, 3600.0), unit) == Mul(m, 3600.0 * unit);
  }

  /** A rate per hour, slowed by stress, against the hours and the stress. */
  lemma Slowed(rate: real, m: real, k: real)
    requires k > 0.0 && m >= 1.0
    ensures Mul(Mul(m, k), rate / k * (1.0 / m)) == rate
  {
    var q, r := rate / k, 1.0 / m;
    assert q * k == rate && r * m == 1.0;
    assert m * k * (q * r) == q * k * (r * m);
  }

  lemma Quickened(rate: real, m: real, k: real)
    requires k > 0.0
    ensures Mul(Mul(m, k), rate / k * m) == Mul(rate, Mul(m, m))
  {
    var q := rate / k;
    assert q * k == rate;
    assert m * k * (q * m) == q * k * (m * m);
  }

  lemma DegradedIsLawful(p: Pass, unit: real, coin: real, s: Settings, horizon: real)
    requires s.Valid() && p.state == Degraded && Drawn(p, unit, coin, s, horizon)
    ensures Lawful(p, unit, coin, s, horizon)
  {
    hide SumRates, Arrival, Mul;
    var m := Stress(s, p.stressed);
    var c := Competing(s, Degraded, p.stressed);
    var k := Mul(m, 3600.0);
    var down, heal := Mul(s.degradedToDownPerHour, Mul(m, m)), s.degradedToHealthyPerHour;
    Sum2(c[0], c[1]);
    Quickened(s.degradedToDownPerHour, m, 3600.0);
    Slowed(heal, m, 3600.0);
    assert Mul(k, c[0].0) == down;
    assert Mul(k, c[1].0) == heal;
    TimesSum(k, c[0].0, c[1].0);
    WaitTimesRate(p.start, unit, c[0].0 + c[1].0, k, down + heal);
    assert Mul(Mul(m, 3600.0), unit) == Mul(m, 3600.0 * unit) by {
      Regrouped(m, 3600.0, unit);
    }
    if Fires(p, horizon) {
      Odds(coin, c[0].0, c[1].0, k, down, heal, m);
      PicksOfTwo(c[0], c[1], Target(coin, c[0].0 + c[1].0), p.destination);
    }
  }

  lemma Regrouped(x: real, y: real, z: real)
    ensures Mul(Mul(x, y), z) == Mul(x, y * z)
  {
  }

  lemma TimesSum(k: real, x: real, y: real)
    ensures Mul(k, x + y) == Mul(k, x) + Mul(k, y)
  {
  }

  lemma PicksOfTwo(a: (real, RailState), b: (real, RailState), target: real, chosen: RailState)
    requires Picks([a, b], target, chosen)
    ensures chosen == if target < a.0 then a.1 else b.1
  {
    var i: nat :| FallsInto([a, b], target, i) && chosen == [a, b][i].1;
    Sum2(a, b);
  }

  /** A coin falls on the first of two rates exactly when its odds do. */
  lemma Odds(coin: real, a: real, b: real, k: real, a': real, b': real, m: real)
    requires m >= 1.0 && k == Mul(m, 3600.0) && Mul(k, a) == a' && Mul(k, b) == b'
    ensures Target(coin, a + b) < a <==> Mul(coin, b') < Mul(1.0 - coin, a')
  {
    var x := a - coin * (a + b);
    assert k > 0.0;
    assert k * x == (1.0 - coin) * a' - coin * b' by {
      assert k * x == k * a - coin * (k * a) - coin * (k * b);
    }
    if x > 0.0 {
      assert k * x > 0.0;
    } else {
      assert k * (-x) >= 0.0;
    }
  }

  /** Every pass of every run. */
  lemma {:induction false} RunsAreLawful(run: seq<Pass>, s: Settings, issuer: Trajectory<IssuerState>, draws: Draws,
                                         horizon: real, i: nat)
    requires s.Valid() && issuer.Valid() && IsRunPrefix(run, s, issuer, draws, horizon) && i < |run|
    ensures Lawful(run[i], draws.unit(i), draws.coin(i), s, horizon)
  {
    hide PassFollows, Lawful, Reaches;
    if i < |run| - 1 {
      RunsAreLawful(run[..|run| - 1], s, issuer, draws, horizon, i);
    } else {
      PassIsLawful(run[i], i, s, issuer, draws, horizon);
    }
  }

  /** Two passes from one moment with one draw, the one under stress: the other waits as much longer to fail, and is
      as much quicker to recover; and what goes down without stress goes down with it. */
  lemma StressHurts(p: Pass, q: Pass, unit: real, coin: real, s: Settings, horizon: real)
    requires s.Valid() && Lawful(p, unit, coin, s, horizon) && Lawful(q, unit, coin, s, horizon)
    requires p.start == q.start && p.state == q.state && !p.stressed && q.stressed && 0.0 <= coin < 1.0
    ensures p.state == Healthy ==> p.arrives - p.start == Mul(s.stressMultiplier, q.arrives - q.start)
    ensures p.state == Down ==> q.arrives - q.start == Mul(s.stressMultiplier, p.arrives - p.start)
    ensures p.state == Degraded && Fires(p, horizon) && Fires(q, horizon) && p.destination == Down ==>
              q.destination == Down
  {
    var m, v, w := s.stressMultiplier, p.arrives - p.start, q.arrives - q.start;
    match p.state
    case Healthy =>
      Faster(v, w, Mul(s.healthyToDegradedPerDay, s.reliability), m, 86400.0 * unit);
    case Down =>
      Slower(v, w, s.downToDegradedPerHour, m, 3600.0 * unit);
    case Degraded =>
      BetterOdds(1.0 - coin, s.degradedToDownPerHour, m);
  }

  lemma Faster(v: real, w: real, rate: real, m: real, work: real)
    requires rate > 0.0 && m > 0.0 && Mul(v, Mul(rate, 1.0)) == work == Mul(w, Mul(rate, m))
    ensures v == Mul(m, w)
  {
    assert (v - m * w) * rate == 0.0;
  }

  lemma Slower(v: real, w: real, rate: real, m: real, work: real)
    requires rate > 0.0 && m > 0.0 && Mul(v, rate) == Mul(1.0, work) && Mul(w, rate) == Mul(m, work)
    ensures w == Mul(m, v)
  {
    assert (w - m * v) * rate == 0.0;
  }

  lemma BetterOdds(x: real, rate: real, m: real)
    requires x >= 0.0 && rate >= 0.0 && m >= 1.0
    ensures Mul(x, Mul(rate, Mul(1.0, 1.0))) <= Mul(x, Mul(rate, Mul(m, m)))
  {
    assert m * m >= 1.0;
    assert rate * (m * m - 1.0) >= 0.0;
    assert x * (rate * (m * m) - rate) >= 0.0;
  }

  /** Of two issuers that differ only in reliability, the waits out of healthy differ in the inverse ratio, and no
      others do. */
  lemma ReliabilityScalesOnset(p: Pass, q: Pass, unit: real, coin: real, s: Settings, reliability: real, horizon: real)
    requires s.Valid() && reliability > 0.0
    requires Lawful(p, unit, coin, s, horizon) && Lawful(q, unit, coin, s.(reliability := reliability), horizon)
    requires p.start == q.start && p.state == q.state && p.stressed == q.stressed
    ensures p.state == Healthy ==>
              Mul(p.arrives - p.start, s.reliability) == Mul(q.arrives - q.start, reliability)
    ensures p.state != Healthy ==> p.arrives == q.arrives
  {
    var m, v, w := Stress(s, p.stressed), p.arrives - p.start, q.arrives - q.start;
    match p.state
    case Healthy =>
      SameWork(v, w, s.healthyToDegradedPerDay, s.reliability, reliability, m);
    case Down =>
      SameWait(v, w, s.downToDegradedPerHour);
    case Degraded =>
      assert Mul(s.degradedToDownPerHour, Mul(m, m)) >= 0.0 by {
        BetterOdds(1.0, s.degradedToDownPerHour, m);
      }
      SameWait(v, w, Mul(s.degradedToDownPerHour, Mul(m, m)) + s.degradedToHealthyPerHour);
  }

  lemma SameWork(v: real, w: real, rate: real, x: real, y: real, m: real)
    requires rate > 0.0 && m > 0.0 && Mul(v, Mul(Mul(rate, x), m)) == Mul(w, Mul(Mul(rate, y), m))
    ensures Mul(v, x) == Mul(w, y)
  {
    var k := rate * m;
    assert k > 0.0;
    assert (v * x - w * y) * k == 0.0 by {
      assert v * (rate * x * m) == v * x * k;
      assert w * (rate * y * m) == w * y * k;
    }
  }

  lemma SameWait(v: real, w: real, rate: real)
    requires rate > 0.0 && Mul(v, rate) == Mul(w, rate)
    ensures v == w
  {
    assert (v - w) * rate == 0.0;
  }

  /** An issuer's path in the calibrated units: normal and stressed in turn, each normal stretch a unit draw's worth of
      days at the daily onset, which unreliability scales, and each stressed one of hours at the hourly recovery. */
  ghost predicate IssuerLawful(path: Trajectory<IssuerState>, unit: nat -> real, onsetPerDay: real,
                               recoveryPerHour: real, reliability: real) {
    && |path.states| == |path.times|
    && (forall i :: 0 <= i < |path.states| ==> path.states[i] == if i % 2 == 0 then Normal else Stressed)
    && forall i :: 0 <= i < |path.times| - 1 ==>
         if i % 2 == 0
         then Mul(path.times[i + 1] - path.times[i], Mul(onsetPerDay, reliability)) == 86400.0 * unit(i)
         else Mul(path.times[i + 1] - path.times[i], recoveryPerHour) == 3600.0 * unit(i)
  }

  method SimulateIssuer(unit: nat -> real, horizon: real, onsetPerDay: real, recoveryPerHour: real, reliability: real)
    returns (path: Trajectory<IssuerState>)
    requires onsetPerDay > 0.0 && recoveryPerHour > 0.0 && reliability > 0.0 && Unbounded(unit)
    ensures path.Valid() && (forall i :: 0 < i < |path.times| ==> path.times[i] < horizon)
    ensures IssuerLawful(path, unit, onsetPerDay, recoveryPerHour, reliability)
  {
    var onset := onsetPerDay / SECONDS_PER_DAY;
    var recovery := recoveryPerHour / SECONDS_PER_HOUR;
    path := SimulateTwoState(unit, horizon, onset * reliability, recovery, Normal, Stressed);
    hide Mul, Arrival;
    forall i | 0 <= i < |path.times| - 1
      ensures if i % 2 == 0
              then Mul(path.times[i + 1] - path.times[i], Mul(onsetPerDay, reliability)) == 86400.0 * unit(i)
              else Mul(path.times[i + 1] - path.times[i], recoveryPerHour) == 3600.0 * unit(i)
    {
      assert Lasts(path.times, i, unit, onset * reliability, recovery);
      IssuerRates(onsetPerDay, reliability, recoveryPerHour);
      if i % 2 == 0 {
        WaitTimesRate(path.times[i], unit(i), onset * reliability, 86400.0, Mul(onsetPerDay, reliability));
      } else {
        WaitTimesRate(path.times[i], unit(i), recovery, 3600.0, recoveryPerHour);
      }
      AsProduct(86400.0, unit(i));
      AsProduct(3600.0, unit(i));
    }
  }

  lemma AsProduct(x: real, y: real)
    ensures Mul(x, y) == x * y
  {
  }

  lemma IssuerRates(onsetPerDay: real, reliability: real, recoveryPerHour: real)
    ensures Mul(86400.0, onsetPerDay / SECONDS_PER_DAY * reliability) == Mul(onsetPerDay, reliability)
    ensures Mul(3600.0, recoveryPerHour / SECONDS_PER_HOUR) == recoveryPerHour
  {
  }

  // ---- the draws determine the path -----------------------------------------

  lemma PickIsUnique(competing: seq<(real, RailState)>, target: real, a: RailState, b: RailState)
    requires Picks(competing, target, a) && Picks(competing, target, b)
    ensures a == b
  {
    var i: nat :| FallsInto(competing, target, i) && a == competing[i].1;
    var j: nat :| FallsInto(competing, target, j) && b == competing[j].1;
    SumRatesSnoc(competing, i);
    SumRatesSnoc(competing, j);
  }

  lemma NextChangeIsUnique(issuer: Trajectory<IssuerState>, horizon: real, t: real, a: real, b: real)
    requires issuer.Valid() && IsNextChange(issuer, horizon, t, a) && IsNextChange(issuer, horizon, t, b)
    ensures a == b
  {
  }

  lemma {:induction false} SamePasses(run: seq<Pass>, other: seq<Pass>, s: Settings, issuer: Trajectory<IssuerState>,
                                      draws: Draws, horizon: real)
    requires s.Valid() && issuer.Valid() && |run| == |other|
    requires IsRunPrefix(run, s, issuer, draws, horizon) && IsRunPrefix(other, s, issuer, draws, horizon)
    ensures run == other
  {
    hide Competing, SumRates, TotalRate, Arrival, Target, Picks, IsNextChange, At;
    if run != [] {
      var n := |run| - 1;
      SamePasses(run[..n], other[..n], s, issuer, draws, horizon);
      SameFollower(run[n], other[n], n, s, issuer, draws, horizon);
      assert run == run[..n] + [run[n]] && other == other[..n] + [other[n]];
    }
  }

  lemma SameFollower(p: Pass, q: Pass, n: nat, s: Settings, issuer: Trajectory<IssuerState>, draws: Draws,
                     horizon: real)
    requires s.Valid() && issuer.Valid() && p.start == q.start && p.state == q.state
    requires PassFollows(p, n, s, issuer, draws, horizon) && PassFollows(q, n, s, issuer, draws, horizon)
    ensures p == q
  {
    hide Competing, SumRates, TotalRate, Arrival, Target, Picks, IsNextChange, At;
    NextChangeIsUnique(issuer, horizon, p.start, p.change, q.change);
    if Fires(p, horizon) {
      PickIsUnique(Competing(s, p.state, p.stressed), Target(draws.coin(n), TotalRate(s, p.state, p.stressed)),
                   p.destination, q.destination);
    }
  }

  lemma {:induction false} PrefixOfPrefix(run: seq<Pass>, n: nat, s: Settings, issuer: Trajectory<IssuerState>,
                                          draws: Draws, horizon: real)
    requires s.Valid() && issuer.Valid() && n <= |run|
    requires IsRunPrefix(run, s, issuer, draws, horizon)
    ensures IsRunPrefix(run[..n], s, issuer, draws, horizon)
    ensures n < |run| ==> Reaches(run[..n], run[n].start, run[n].state, horizon)
    decreases |run| - n
  {
    if n == |run| {
      assert run[..n] == run;
    } else {
      PrefixOfPrefix(run, n + 1, s, issuer, draws, horizon);
      assert run[..n + 1][..n] == run[..n];
    }
  }

  /** Two complete runs over the same issuer path and the same draws are the same run. */
  lemma RunIsDetermined(run: seq<Pass>, other: seq<Pass>, s: Settings, issuer: Trajectory<IssuerState>,
                        draws: Draws, horizon: real)
    requires s.Valid() && issuer.Valid()
    requires IsRun(run, s, issuer, draws, horizon) && IsRun(other, s, issuer, draws, horizon)
    ensures run == other
  {
    if |run| <= |other| {
      CompleteRunIsWhole(run, other, s, issuer, draws, horizon);
    } else {
      CompleteRunIsWhole(other, run, s, issuer, draws, horizon);
    }
  }

  /** What every simulated rail path is like, and that the draws leave only one. */
  lemma RailPathsAreSoundAndUnique(path: Trajectory<RailState>, other: Trajectory<RailState>, s: Settings,
                                   issuer: Trajectory<IssuerState>, draws: Draws, horizon: real)
    requires s.Valid() && issuer.Valid()
    requires IsRailPath(path, s, issuer, draws, horizon) && IsRailPath(other, s, issuer, draws, horizon)
    ensures path == other
    ensures path.Valid() && path.states[0] == Healthy
    ensures forall i :: 0 < i < |path.times| ==> path.times[i] < horizon
    ensures forall i :: 0 <= i < |path.states| - 1 ==> Adjacent(path.states[i], path.states[i + 1])
  {
    hide PathOf, Adjacent;
    var run :| IsRun(run, s, issuer, draws, horizon) && path == PathOf(run, horizon);
    var run' :| IsRun(run', s, issuer, draws, horizon) && other == PathOf(run', horizon);
    RunIsDetermined(run, run', s, issuer, draws, horizon);
    PathIsSound(run, s, issuer, draws, horizon);
    StartsHealthy(run, horizon);
  }

  lemma {:induction false} StartsHealthy(run: seq<Pass>, horizon: real)
    ensures |PathOf(run, horizon).states| > 0 && PathOf(run, horizon).states[0] == Healthy
  {
    if run != [] {
      StartsHealthy(run[..|run| - 1], horizon);
    }
  }

  lemma CompleteRunIsWhole(run: seq<Pass>, other: seq<Pass>, s: Settings, issuer: Trajectory<IssuerState>,
                           draws: Draws, horizon: real)
    requires s.Valid() && issuer.Valid() && |run| <= |other|
    requires IsRun(run, s, issuer, draws, horizon) && IsRun(other, s, issuer, draws, horizon)
    ensures run == other
  {
    PrefixOfPrefix(other, |run|, s, issuer, draws, horizon);
    SamePasses(run, other[..|run|], s, issuer, draws, horizon);
    assert other[..|other|] == other;
  }

  /** The issuer path is determined in the same way. */
  lemma TwoStatePathIsDetermined<S>(path: Trajectory<S>, other: Trajectory<S>, unit: nat -> real, horizon: real,
                                    firstRate: real, secondRate: real, first: S, second: S)
    requires firstRate > 0.0 && secondRate > 0.0
    requires IsTwoStatePath(path, unit, horizon, firstRate, secondRate, first, second)
    requires IsTwoStatePath(other, unit, horizon, firstRate, secondRate, first, second)
    ensures path == other
  {
    var n := |path.times|;
    var m := |other.times|;
    SameTimes(path, other, unit, horizon, firstRate, secondRate, first, second, (if n <= m then n else m) - 1);
    assert n < m ==> Lasts(other.times, n - 1, unit, firstRate, secondRate);
    assert m < n ==> Lasts(path.times, m - 1, unit, firstRate, secondRate);
  }

  lemma {:induction false} SameTimes<S>(path: Trajectory<S>, other: Trajectory<S>, unit: nat -> real, horizon: real,
                                        firstRate: real, secondRate: real, first: S, second: S, i: nat)
    requires firstRate > 0.0 && secondRate > 0.0
    requires IsTwoStatePrefix(path, unit, horizon, firstRate, secondRate, first, second)
    requires IsTwoStatePrefix(other, unit, horizon, firstRate, secondRate, first, second)
    requires i < |path.times| && i < |other.times|
    ensures path.times[..i + 1] == other.times[..i + 1]
  {
    if i > 0 {
      SameTimes(path, other, unit, horizon, firstRate, secondRate, first, second, i - 1);
      assert Lasts(path.times, i - 1, unit, firstRate, secondRate) &&
             Lasts(other.times, i - 1, unit, firstRate, secondRate);
      assert path.times[..i + 1] == path.times[..i] + [path.times[i]];
      assert other.times[..i + 1] == other.times[..i] + [other.times[i]];
    }
  }
}
