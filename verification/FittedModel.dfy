/** Recovery probabilities fitted by shrinkage. */
module FittedModel {
  // One table a level, each cell drawn towards its parent.

  import opened Common
  import opened Estimators
  import opened TextOrder

  datatype ObservedCause = InsufficientFunds | IssuerTrouble | Declined | InstrumentDead | MandateDead | NotSaid

  /** The gateway's code, mapped to a coarse cause. */
  function ObservedFrom(code: string): ObservedCause {
    if code == "SIM_INSUFFICIENT_FUNDS" then InsufficientFunds
    else if code == "SIM_ISSUER_UNAVAILABLE" || code == "SIM_ISSUER_TIMEOUT" then IssuerTrouble
    else if code == "SIM_DECLINED_BY_ISSUER" then Declined
    else if code == "SIM_INSTRUMENT_EXPIRED" then InstrumentDead
    else if code == "SIM_MANDATE_EXPIRED" || code == "SIM_MANDATE_REVOKED" then MandateDead
    else NotSaid
  }

  function RepresentativeCode(cause: ObservedCause): string {
    match cause
    case InsufficientFunds => "SIM_INSUFFICIENT_FUNDS"
    case IssuerTrouble => "SIM_ISSUER_UNAVAILABLE"
    case Declined => "SIM_DECLINED_BY_ISSUER"
    case InstrumentDead => "SIM_INSTRUMENT_EXPIRED"
    case MandateDead => "SIM_MANDATE_EXPIRED"
    case NotSaid => "SIM_PAYMENT_FAILED"
  }

  datatype Context = Context(errorCode: Option<string>, prePayday: Option<bool>) {
    function Cause(): ObservedCause {
      ObservedFrom(if errorCode.Some? then errorCode.value else "")
    }

    function Payday(): bool {
      prePayday.Some? && prePayday.value
    }
  }

  /** A log line; the last two fields are the answer key. */
  datatype Episode = Episode(context: Context, action: EvaluatedAction, recovered: bool,
                             counterfactualRewards: map<EvaluatedAction, int>,
                             counterfactualRecoveries: map<EvaluatedAction, bool>)

  type Leaf = (EvaluatedAction, ObservedCause, bool)

  datatype Observation = Observation(action: EvaluatedAction, cause: ObservedCause, payday: bool, recovered: bool)

  function Observed(e: Episode): Observation {
    Observation(e.action, e.context.Cause(), e.context.Payday(), e.recovered)
  }

  function Observations(episodes: seq<Episode>): (obs: seq<Observation>)
    ensures |obs| == |episodes|
  {
    seq(|episodes|, i requires 0 <= i < |episodes| => Observed(episodes[i]))
  }

  // ---- evidence -------------------------------------------------------------------------

  datatype Counts = Counts(successes: nat, trials: nat)

  function Plus(a: Counts, b: Counts): Counts {
    Counts(a.successes + b.successes, a.trials + b.trials)
  }

  function One(recovered: bool): Counts {
    Counts(if recovered then 1 else 0, 1)
  }

  datatype Group = Everything | ByAction(action: EvaluatedAction)
                 | ByCause(action: EvaluatedAction, cause: ObservedCause)
                 | ByLeaf(action: EvaluatedAction, cause: ObservedCause, payday: bool)
  {
    predicate Has(o: Observation) {
      match this
      case Everything => true
      case ByAction(a) => o.action == a
      case ByCause(a, c) => o.action == a && o.cause == c
      case ByLeaf(a, c, p) => o.action == a && o.cause == c && o.payday == p
    }
  }

  /** What a log says about a group. */
  function Tally(obs: seq<Observation>, group: Group): (counts: Counts)
    ensures counts.successes <= counts.trials <= |obs|
  {
    if obs == [] then Counts(0, 0)
    else
      var o := obs[|obs| - 1];
      Plus(Tally(obs[..|obs| - 1], group), if group.Has(o) then One(o.recovered) else Counts(0, 0))
  }

  lemma TallyOfNext(obs: seq<Observation>, o: Observation, group: Group)
    ensures Tally(obs + [o], group) == Plus(Tally(obs, group), if group.Has(o) then One(o.recovered) else Counts(0, 0))
  {
    assert (obs + [o])[..|obs|] == obs;
  }

  // ---- levels ------------------------------------------------------------------------------

  function SumTally(obs: seq<Observation>, groups: seq<Group>): Counts {
    if groups == [] then Counts(0, 0) else Plus(Tally(obs, groups[0]), SumTally(obs, groups[1..]))
  }

  function HowMany(groups: seq<Group>, o: Observation): nat {
    if groups == [] then 0 else (if groups[0].Has(o) then 1 else 0) + HowMany(groups[1..], o)
  }

  /** Each observation of the parent is in exactly one child, and no other is in any. */
  ghost predicate Partitions(parent: Group, children: seq<Group>) {
    forall o :: HowMany(children, o) == if parent.Has(o) then 1 else 0
  }

  function Credited(n: nat, recovered: bool): Counts {
    Counts(if recovered then n else 0, n)
  }

  lemma {:induction false} SumTallyOfNext(obs: seq<Observation>, o: Observation, groups: seq<Group>)
    ensures SumTally(obs + [o], groups) == Plus(SumTally(obs, groups), Credited(HowMany(groups, o), o.recovered))
  {
    hide Tally, Group.Has, SumTally, HowMany;
    if groups == [] {
      NoGroups(obs, o);
      NoGroups(obs + [o], o);
    } else {
      var first, rest := groups[0], groups[1..];
      SumTallyOfNext(obs, o, rest);
      TallyOfNext(obs, o, first);
      FirstGroup(obs + [o], o, groups);
      FirstGroup(obs, o, groups);
      AddCredit(Tally(obs, first), SumTally(obs, rest), HasOne(first, o), HowMany(rest, o), o.recovered);
    }
  }

  lemma AddCredit(a: Counts, b: Counts, m: nat, n: nat, recovered: bool)
    ensures Plus(Plus(a, Credited(m, recovered)), Plus(b, Credited(n, recovered))) ==
            Plus(Plus(a, b), Credited(m + n, recovered))
  {
  }

  lemma NoGroups(obs: seq<Observation>, o: Observation)
    ensures SumTally(obs, []) == Counts(0, 0) && HowMany([], o) == 0
  {
  }

  function HasOne(group: Group, o: Observation): nat {
    if group.Has(o) then 1 else 0
  }

  lemma FirstGroup(obs: seq<Observation>, o: Observation, groups: seq<Group>)
    requires groups != []
    ensures SumTally(obs, groups) == Plus(Tally(obs, groups[0]), SumTally(obs, groups[1..]))
    ensures HowMany(groups, o) == HasOne(groups[0], o) + HowMany(groups[1..], o)
  {
  }

  lemma {:induction false} NothingTallied(groups: seq<Group>)
    ensures SumTally([], groups) == Counts(0, 0)
  {
    if groups != [] {
      hide Group.Has;
      NothingTallied(groups[1..]);
      assert Tally([], groups[0]) == Counts(0, 0);
    }
  }

  /** Every level's counts are the sum of its children's. */
  lemma {:induction false} ChildrenAddUp(obs: seq<Observation>, parent: Group, children: seq<Group>)
    requires Partitions(parent, children)
    ensures Tally(obs, parent) == SumTally(obs, children)
  {
    hide SumTally, Group.Has, HowMany;
    if obs == [] {
      NothingTallied(children);
    } else {
      var front, o := obs[..|obs| - 1], obs[|obs| - 1];
      assert obs == front + [o];
      ChildrenAddUp(front, parent, children);
      SumTallyOfNext(front, o, children);
      assert HowMany(children, o) == if parent.Has(o) then 1 else 0;
    }
  }

  function Actions(): seq<Group> {
    [ByAction(RetryImmediate), ByAction(RetryScheduled), ByAction(SwitchRail), ByAction(CustomerNudge),
     ByAction(NoAction)]
  }

  function Causes(a: EvaluatedAction): seq<Group> {
    [ByCause(a, InsufficientFunds), ByCause(a, IssuerTrouble), ByCause(a, Declined),
     ByCause(a, InstrumentDead), ByCause(a, MandateDead), ByCause(a, NotSaid)]
  }

  function Leaves(a: EvaluatedAction, c: ObservedCause): seq<Group> {
    [ByLeaf(a, c, false), ByLeaf(a, c, true)]
  }

  lemma HowManyOfNext(first: Group, rest: seq<Group>, o: Observation)
    ensures HowMany([first] + rest, o) == (if first.Has(o) then 1 else 0) + HowMany(rest, o)
  {
    assert ([first] + rest)[1..] == rest;
  }

  /** The levels the model keeps: leaves under causes, causes under actions, actions under everything. */
  lemma LevelsPartition(a: EvaluatedAction, c: ObservedCause)
    ensures Partitions(Everything, Actions()) && Partitions(ByAction(a), Causes(a)) &&
            Partitions(ByCause(a, c), Leaves(a, c))
  {
    hide HowMany;
    forall o ensures HowMany(Actions(), o) == 1 {
      CountFive(Actions(), o);
    }
    forall o ensures HowMany(Causes(a), o) == HasOne(ByAction(a), o) {
      CountSix(Causes(a), o);
      OneCause(a, o);
    }
    forall o ensures HowMany(Leaves(a, c), o) == HasOne(ByCause(a, c), o) {
      CountTwo(Leaves(a, c), o);
    }
  }

  lemma OneCause(a: EvaluatedAction, o: Observation)
    ensures HasOne(ByCause(a, InsufficientFunds), o) + HasOne(ByCause(a, IssuerTrouble), o) +
            HasOne(ByCause(a, Declined), o)
          + HasOne(ByCause(a, InstrumentDead), o) + HasOne(ByCause(a, MandateDead), o) + HasOne(ByCause(a, NotSaid), o)
         == HasOne(ByAction(a), o)
  {
  }

  lemma CountTwo(gs: seq<Group>, o: Observation)
    requires |gs| == 2
    ensures HowMany(gs, o) == HasOne(gs[0], o) + HasOne(gs[1], o)
  {
    assert gs == [gs[0]] + ([gs[1]] + []);
    HowManyOfNext(gs[0], [gs[1]] + [], o);
    HowManyOfNext(gs[1], [], o);
  }

  lemma CountFive(gs: seq<Group>, o: Observation)
    requires |gs| == 5
    ensures HowMany(gs, o) ==
            HasOne(gs[0], o) + HasOne(gs[1], o) + HasOne(gs[2], o) + HasOne(gs[3], o) + HasOne(gs[4], o)
  {
    hide Group.Has, HowMany;
    assert gs == [gs[0]] + gs[1..] && gs[1..] == [gs[1]] + gs[2..] && gs[2..] == [gs[2]] + gs[3..];
    HowManyOfNext(gs[0], gs[1..], o);
    HowManyOfNext(gs[1], gs[2..], o);
    HowManyOfNext(gs[2], gs[3..], o);
    CountTwo(gs[3..], o);
  }

  lemma CountSix(gs: seq<Group>, o: Observation)
    requires |gs| == 6
    ensures HowMany(gs, o) ==
            HasOne(gs[0], o) + HasOne(gs[1], o) + HasOne(gs[2], o) + HasOne(gs[3], o) + HasOne(gs[4], o) +
            HasOne(gs[5], o)
  {
    hide Group.Has, HowMany;
    assert gs == [gs[0]] + gs[1..];
    HowManyOfNext(gs[0], gs[1..], o);
    CountFive(gs[1..], o);
  }

  // ---- the order of the log -----------------------------------------------------------------

  lemma TakeOut(others: seq<Observation>, k: nat)
    requires k < |others|
    ensures others == others[..k] + [others[k]] + others[k + 1..]
    ensures multiset(others[..k] + others[k + 1..]) == multiset(others) - multiset{others[k]}
  {
    assert others == others[..k] + [others[k]] + others[k + 1..];
  }

  /** The order of the log does not matter. */
  lemma {:induction false} OrderDoesNotMatter(obs: seq<Observation>, others: seq<Observation>, group: Group)
    requires multiset(obs) == multiset(others)
    ensures Tally(obs, group) == Tally(others, group)
    decreases |obs|
  {
    hide Tally;
    assert |multiset(others)| == |others| && |multiset(obs)| == |obs|;
    if obs == [] {
      assert others == [];
    } else {
      var front, o := obs[..|obs| - 1], obs[|obs| - 1];
      assert obs == front + [o];
      assert o in multiset(others);
      var k :| 0 <= k < |others| && others[k] == o;
      TakeOut(others, k);
      OrderDoesNotMatter(front, others[..k] + others[k + 1..], group);
      MoveToEnd(others[..k], o, others[k + 1..], group);
      TallyOfNext(others[..k] + others[k + 1..], o, group);
      TallyOfNext(front, o, group);
    }
  }

  lemma {:induction false} MoveToEnd(a: seq<Observation>, o: Observation, b: seq<Observation>, group: Group)
    ensures Tally(a + [o] + b, group) == Tally(a + b + [o], group)
  {
    hide Tally;
    if b == [] {
      assert a + [o] + b == a + [o] && a + b + [o] == a + [o];
    } else {
      var front, last := b[..|b| - 1], b[|b| - 1];
      MoveToEnd(a, o, front, group);
      assert a + [o] + b == (a + [o] + front) + [last];
      assert a + b == (a + front) + [last];
      TallyOfNext(a + [o] + front, last, group);
      TallyOfNext(a + front, last, group);
      TallyOfNext(a + b, o, group);
      TallyOfNext(a + front, o, group);
    }
  }

  // ---- shrinkage --------------------------------------------------------------------------

  datatype Failure = NotFitted | DivisionByZero

  datatype Cell = Cell(probability: real, successes: nat, trials: nat, parentProbability: real)

  function Shrunk(counts: Counts, m: real, parent: real): Result<real, Failure> {
    var weight := counts.trials as real + m;
    if weight == 0.0 then Err(DivisionByZero) else Ok((counts.successes as real + m * parent) / weight)
  }

  function Rate(counts: Counts): real {
    if counts.trials == 0 then 0.0 else counts.successes as real / counts.trials as real
  }

  /** Coarse to fine, each level shrunk toward the one above it. */
  function CellOf(obs: seq<Observation>, m: real, action: EvaluatedAction, cause: ObservedCause,
                  payday: bool): Result<Cell, Failure> {
    var byAction := Shrunk(Tally(obs, ByAction(action)), m, Rate(Tally(obs, Everything)));
    if byAction.Err? then Err(byAction.error)
    else
      var byCause := Shrunk(Tally(obs, ByCause(action, cause)), m, byAction.value);
      if byCause.Err? then Err(byCause.error)
      else
        var leaf := Tally(obs, ByLeaf(action, cause, payday));
        var p := Shrunk(leaf, m, byCause.value);
        if p.Err? then Err(p.error) else Ok(Cell(p.value, leaf.successes, leaf.trials, byCause.value))
  }

  function Prediction(obs: seq<Observation>, m: real, context: Context,
                      action: EvaluatedAction): Result<real, Failure> {
    if action != NoAction && context.Cause() == MandateDead then Ok(0.0)
    else
      var cell := CellOf(obs, m, action, context.Cause(), context.Payday());
      if cell.Err? then Err(cell.error) else Ok(cell.value.probability)
  }

  // ---- the model, with its tables -----------------------------------------------------------

  /** A table that reads zero where it has no entry. */
  function Read<K>(table: map<K, Counts>, key: K): Counts {
    if key in table then table[key] else Counts(0, 0)
  }

  function Bumped<K>(table: map<K, Counts>, key: K, recovered: bool): map<K, Counts> {
    table[key := Plus(Read(table, key), One(recovered))]
  }

  /** What reading a missing entry leaves behind. */
  function Touched<K>(table: map<K, Counts>, key: K): map<K, Counts> {
    table[key := Read(table, key)]
  }

  lemma BumpedReads<K(!new)>(table: map<K, Counts>, key: K, recovered: bool)
    ensures forall k ::
              Read(Bumped(table, key, recovered), k) ==
              Plus(Read(table, k), if k == key then One(recovered) else Counts(0, 0))
  {
  }

  lemma TouchedReads<K(!new)>(table: map<K, Counts>, key: K)
    ensures forall k :: Read(Touched(table, key), k) == Read(table, k)
    ensures key in Touched(table, key) && Touched(table, key)[key] == Read(table, key)
  {
  }

  datatype Row = Row(leaf: Leaf, trials: nat, observedRate: real, fitted: real)

  const ACTIONS: seq<EvaluatedAction> := [CustomerNudge, NoAction, RetryImmediate, RetryScheduled, SwitchRail]
  const CAUSES: seq<ObservedCause> := [Declined, InstrumentDead, InsufficientFunds, IssuerTrouble, MandateDead, NotSaid]
  const LEAVES: nat := 60

  /** The leaves in the order of their names, "no" before "yes". */
  function LeafAt(i: nat): Leaf
    requires i < LEAVES
  {
    (ACTIONS[i / 12], CAUSES[i / 2 % 6], i % 2 == 1)
  }

  function GroupOf(leaf: Leaf): Group {
    ByLeaf(leaf.0, leaf.1, leaf.2)
  }

  /** The rows for the leaves from `i` on. */
  function SummaryRows(obs: seq<Observation>, m: real, i: nat): Result<seq<Row>, Failure>
    requires i <= LEAVES
    decreases LEAVES - i
  {
    if i == LEAVES then Ok([])
    else
      var leaf, later := LeafAt(i), SummaryRows(obs, m, i + 1);
      var counts := Tally(obs, GroupOf(leaf));
      var cell := CellOf(obs, m, leaf.0, leaf.1, leaf.2);
      if counts.trials == 0 then later
      else if cell.Err? then Err(cell.error)
      else After(Row(leaf, counts.trials, Rate(counts), cell.value.probability), later)
  }

  function After(row: Row, later: Result<seq<Row>, Failure>): Result<seq<Row>, Failure> {
    if later.Err? then later else Ok([row] + later.value)
  }

  function Behind(rows: seq<Row>, later: Result<seq<Row>, Failure>): Result<seq<Row>, Failure> {
    if later.Err? then later else Ok(rows + later.value)
  }

  lemma BehindOne(rows: seq<Row>, row: Row, later: Result<seq<Row>, Failure>)
    ensures Behind(rows, After(row, later)) == Behind(rows + [row], later)
  {
    if later.Ok? {
      assert rows + ([row] + later.value) == rows + [row] + later.value;
    }
  }

  lemma BehindEnds(rows: seq<Row>, later: Result<seq<Row>, Failure>)
    ensures Behind([], later) == later && Behind(rows, Ok([])) == Ok(rows)
  {
    assert rows + [] == rows;
    if later.Ok? {
      assert [] + later.value == later.value;
    }
  }

  class FittedRecoverabilityModel {
    const smoothing: real
    var overall: Counts
    var byAction: map<EvaluatedAction, Counts>
    var byCause: map<(EvaluatedAction, ObservedCause), Counts>
    var byLeaf: map<Leaf, Counts>
    var fitted: bool

    /** Every table reads what the log says, with or without entries that read zero. */
    ghost predicate Reflects(obs: seq<Observation>)
      reads this
    {
      && overall == Tally(obs, Everything)
      && (forall a :: Read(byAction, a) == Tally(obs, ByAction(a)))
      && (forall a, c :: Read(byCause, (a, c)) == Tally(obs, ByCause(a, c)))
      && (forall a, c, p :: Read(byLeaf, (a, c, p)) == Tally(obs, ByLeaf(a, c, p)))
    }

    constructor (smoothing: real)
      ensures this.smoothing == smoothing && !fitted && Reflects([])
    {
      this.smoothing := smoothing;
      overall := Counts(0, 0);
      byAction, byCause, byLeaf := map[], map[], map[];
      fitted := false;
    }

    static method Fit(episodes: seq<Episode>, smoothing: real) returns (model: FittedRecoverabilityModel)
      ensures fresh(model) && model.fitted && model.smoothing == smoothing && model.Reflects(Observations(episodes))
    {
      model := new FittedRecoverabilityModel(smoothing);
      assert Observations([]) == [];
      for i := 0 to |episodes|
        invariant fresh(model) && model.smoothing == smoothing
        invariant model.Reflects(Observations(episodes[..i]))
      {
        assert Observations(episodes[..i + 1]) == Observations(episodes[..i]) + [Observed(episodes[i])];
        model.Observe(Observations(episodes[..i]), episodes[i].context, episodes[i].action, episodes[i].recovered);
      }
      assert episodes[..|episodes|] == episodes;
      model.fitted := true;
    }

    method Observe(ghost obs: seq<Observation>, context: Context, action: EvaluatedAction, recovered: bool)
      requires Reflects(obs)
      modifies this
      ensures Reflects(obs + [Observation(action, context.Cause(), context.Payday(), recovered)])
      ensures fitted == old(fitted)
    {
      hide Tally, Read, Bumped;
      var cause, payday := context.Cause(), context.Payday();
      ghost var o := Observation(action, cause, payday, recovered);
      BumpedReads(byAction, action, recovered);
      BumpedReads(byCause, (action, cause), recovered);
      BumpedReads(byLeaf, (action, cause, payday), recovered);
      overall := Plus(overall, One(recovered));
      byAction := Bumped(byAction, action, recovered);
      byCause := Bumped(byCause, (action, cause), recovered);
      byLeaf := Bumped(byLeaf, (action, cause, payday), recovered);
      TallyOfNext(obs, o, Everything);
      forall a ensures Read(byAction, a) == Tally(obs + [o], ByAction(a)) {
        TallyOfNext(obs, o, ByAction(a));
      }
      forall a, c ensures Read(byCause, (a, c)) == Tally(obs + [o], ByCause(a, c)) {
        TallyOfNext(obs, o, ByCause(a, c));
      }
      forall a, c, p ensures Read(byLeaf, (a, c, p)) == Tally(obs + [o], ByLeaf(a, c, p)) {
        TallyOfNext(obs, o, ByLeaf(a, c, p));
      }
    }

    /** Reading a missing entry inserts an empty one, which changes nothing that is read later. */
    method CellFor(ghost obs: seq<Observation>, context: Context, action: EvaluatedAction)
      returns (cell: Result<Cell, Failure>)
      requires Reflects(obs)
      modifies this
      ensures Reflects(obs) && fitted == old(fitted)
      ensures cell ==
              if fitted then CellOf(obs, smoothing, action, context.Cause(), context.Payday()) else Err(NotFitted)
    {
      if !fitted {
        return Err(NotFitted);
      }
      hide Tally, Shrunk, Rate, Read, Touched;
      var cause, payday := context.Cause(), context.Payday();
      var pGlobal := Rate(overall);
      TouchedReads(byAction, action);
      byAction := Touched(byAction, action);
      var pAction := Shrunk(byAction[action], smoothing, pGlobal);
      if pAction.Err? {
        return Err(pAction.error);
      }
      TouchedReads(byCause, (action, cause));
      byCause := Touched(byCause, (action, cause));
      var pCause := Shrunk(byCause[(action, cause)], smoothing, pAction.value);
      if pCause.Err? {
        return Err(pCause.error);
      }
      TouchedReads(byLeaf, (action, cause, payday));
      byLeaf := Touched(byLeaf, (action, cause, payday));
      var leaf := byLeaf[(action, cause, payday)];
      var p := Shrunk(leaf, smoothing, pCause.value);
      if p.Err? {
        return Err(p.error);
      }
      cell := Ok(Cell(p.value, leaf.successes, leaf.trials, pCause.value));
    }

    method Predict(ghost obs: seq<Observation>, context: Context, action: EvaluatedAction)
      returns (p: Result<real, Failure>)
      requires Reflects(obs)
      modifies this
      ensures Reflects(obs) && fitted == old(fitted)
      ensures fitted ==> p == Prediction(obs, smoothing, context, action)
    {
      hide CellOf, Tally;
      if action != NoAction && context.Cause() == MandateDead {
        return Ok(0.0);
      }
      var cell := CellFor(obs, context, action);
      p := if cell.Err? then Err(cell.error) else Ok(cell.value.probability);
    }

    method Summary(ghost obs: seq<Observation>) returns (rows: Result<seq<Row>, Failure>)
      requires Reflects(obs) && fitted
      modifies this
      ensures Reflects(obs) && fitted
      ensures rows == SummaryRows(obs, smoothing, 0)
    {
      hide CellOf, Tally, LeafAt, Rate, ObservedFrom, RepresentativeCode;
      var found: seq<Row> := [];
      BehindEnds([], SummaryRows(obs, smoothing, 0));
      for i := 0 to LEAVES
        invariant Reflects(obs) && fitted
        invariant SummaryRows(obs, smoothing, 0) == Behind(found, SummaryRows(obs, smoothing, i))
      {
        var (action, cause, payday) := LeafAt(i);
        var counts := Read(byLeaf, (action, cause, payday));
        if (action, cause, payday) in byLeaf && counts.trials != 0 {
          RepresentativeIsRecognised(cause);
          var cell := CellFor(obs, Context(Some(RepresentativeCode(cause)), Some(payday)), action);
          if cell.Err? {
            return Err(cell.error);
          }
          var row := Row((action, cause, payday), counts.trials, Rate(counts), cell.value.probability);
          BehindOne(found, row, SummaryRows(obs, smoothing, i + 1));
          found := found + [row];
        }
      }
      BehindEnds(found, Ok([]));
      rows := Ok(found);
    }
  }

  lemma RepresentativeIsRecognised(cause: ObservedCause)
    ensures ObservedFrom(RepresentativeCode(cause)) == cause
  {
  }

  // ---- what shrinkage does ----------------------------------------------------------------------

  ghost predicate IsProbability(p: real) {
    0.0 <= p <= 1.0
  }

  function Apart(x: real, y: real): real {
    if x < y then y - x else x - y
  }

  /** A shrunk estimate lies between the cell's own rate and its parent's estimate, at the parent's when there is
      no evidence, and nearer to the rate exactly when there is more evidence than the pseudo-count. */
  lemma ShrunkIsBetween(counts: Counts, m: real, parent: real)
    requires m > 0.0 && counts.successes <= counts.trials && IsProbability(parent)
    ensures Shrunk(counts, m, parent).Ok?
    ensures var p, rate := Shrunk(counts, m, parent).value, Rate(counts);
            && IsProbability(p)
            && (counts.trials == 0 ==> p == parent)
            && (counts.trials > 0 ==> (rate <= p <= parent || parent <= p <= rate))
            && (counts.trials > 0 && rate != parent ==>
                (Apart(p, rate) <= Apart(p, parent) <==> counts.trials as real >= m))
  {
    var s, t := counts.successes as real, counts.trials as real;
    var p := (s + m * parent) / (t + m);
    assert p * (t + m) == s + m * parent;
    if counts.trials == 0 {
      assert p * m == m * parent;
      CancelReal(p, parent, m);
    } else {
      var rate := s / t;
      assert rate * t == s;
      RateIsProbability(rate, s, t);
      Balance(p, rate, parent, t, m);
    }
  }

  lemma CancelReal(x: real, y: real, m: real)
    requires m > 0.0 && x * m == m * y
    ensures x == y
  {
    assert (x - y) * m == 0.0;
  }

  lemma RateIsProbability(rate: real, s: real, t: real)
    requires t > 0.0 && 0.0 <= s <= t && rate * t == s
    ensures IsProbability(rate)
  {
    assert rate < 0.0 ==> rate * t < 0.0;
    assert rate > 1.0 ==> (rate - 1.0) * t > 0.0;
  }

  /** The weights balance: `t` pulls towards the rate as hard as `m` towards the parent. */
  lemma Balance(p: real, rate: real, parent: real, t: real, m: real)
    requires t > 0.0 && m > 0.0 && p * (t + m) == rate * t + m * parent
    ensures rate <= p <= parent || parent <= p <= rate
    ensures rate != parent ==> (Apart(p, rate) <= Apart(p, parent) <==> t >= m)
  {
    var x, y := p - rate, parent - p;
    assert x * t == y * m by {
      assert p * (t + m) == p * t + p * m;
      assert x * t == p * t - rate * t && y * m == parent * m - p * m;
    }
    SameSign(x, y, t, m);
  }

  lemma SameSign(x: real, y: real, t: real, m: real)
    requires t > 0.0 && m > 0.0 && x * t == y * m
    ensures (x >= 0.0 && y >= 0.0) || (x <= 0.0 && y <= 0.0)
    ensures x == 0.0 <==> y == 0.0
    ensures x > 0.0 ==> (x <= y <==> t >= m)
    ensures x < 0.0 ==> (-x <= -y <==> t >= m)
  {
    assert x > 0.0 ==> x * t > 0.0;
    assert x < 0.0 ==> x * t < 0.0;
    assert y > 0.0 ==> y * m > 0.0;
    assert y < 0.0 ==> y * m < 0.0;
    Proportion(x, y, t, m);
    if x < 0.0 {
      Proportion(-x, -y, t, m);
    }
  }

  lemma Proportion(x: real, y: real, t: real, m: real)
    requires t > 0.0 && m > 0.0 && x * t == y * m
    ensures x > 0.0 ==> (x <= y <==> t >= m)
  {
    if x > 0.0 {
      assert (y - x) * m == x * (t - m);
      assert t >= m ==> x * (t - m) >= 0.0;
      assert t < m ==> x * (t - m) < 0.0;
      assert y < x ==> (y - x) * m < 0.0;
      assert y >= x ==> (y - x) * m >= 0.0;
    }
  }

  /** Every cell of every fitted model holds a probability, between the leaf's own rate and its parent's
      estimate, which is itself one. */
  lemma CellsAreProbabilities(obs: seq<Observation>, m: real, action: EvaluatedAction, cause: ObservedCause,
                              payday: bool)
    requires m > 0.0
    ensures var cell := CellOf(obs, m, action, cause, payday);
            && cell.Ok? && IsProbability(cell.value.probability) && IsProbability(cell.value.parentProbability)
            && (cell.value.trials == 0 ==> cell.value.probability == cell.value.parentProbability)
            && (cell.value.trials > 0 ==>
                  var rate := Rate(Counts(cell.value.successes, cell.value.trials));
                  rate <= cell.value.probability <= cell.value.parentProbability
                  || cell.value.parentProbability <= cell.value.probability <= rate)
  {
    hide Tally, Shrunk, Rate;
    var overall := Tally(obs, Everything);
    OverallRate(overall);
    ShrunkIsBetween(Tally(obs, ByAction(action)), m, Rate(overall));
    ShrunkIsBetween(Tally(obs, ByCause(action, cause)), m,
                    Shrunk(Tally(obs, ByAction(action)), m, Rate(overall)).value);
    ShrunkIsBetween(Tally(obs, ByLeaf(action, cause, payday)), m,
                    Shrunk(Tally(obs, ByCause(action, cause)), m,
                           Shrunk(Tally(obs, ByAction(action)), m, Rate(overall)).value).value);
  }

  lemma OverallRate(counts: Counts)
    requires counts.successes <= counts.trials
    ensures IsProbability(Rate(counts))
  {
    if counts.trials > 0 {
      var s, t := counts.successes as real, counts.trials as real;
      assert s / t * t == s;
      RateIsProbability(s / t, s, t);
    }
  }

  // ---- what a cell says, by counting ---------------------------------------------------------------

  type Kind = Observation -> bool

  function Any(): Kind {
    (o: Observation) => true
  }

  function Took(action: EvaluatedAction): Kind {
    (o: Observation) => o.action == action
  }

  function TookFor(action: EvaluatedAction, cause: ObservedCause): Kind {
    (o: Observation) => o.action == action && o.cause == cause
  }

  function TookForAt(action: EvaluatedAction, cause: ObservedCause, payday: bool): Kind {
    (o: Observation) => o.action == action && o.cause == cause && o.payday == payday
  }

  /** A product, named so that a proof can treat it as a number. */
  function Mul(x: real, y: real): real {
    x * y
  }

  ghost function Where(obs: seq<Observation>, kind: Kind): set<nat> {
    set i: nat | i < |obs| && kind(obs[i])
  }

  ghost function RecoveredWhere(obs: seq<Observation>, kind: Kind): set<nat> {
    set i: nat | i < |obs| && kind(obs[i]) && obs[i].recovered
  }

  /** A tally counts the observations of its kind, and those of them that recovered. */
  lemma {:induction false} TallyIsCount(obs: seq<Observation>, group: Group, kind: Kind)
    requires forall o :: group.Has(o) == kind(o)
    ensures Tally(obs, group).trials == |Where(obs, kind)|
    ensures Tally(obs, group).successes == |RecoveredWhere(obs, kind)|
  {
    if obs == [] {
      assert Where(obs, kind) == {} && RecoveredWhere(obs, kind) == {};
    } else {
      hide Tally, Group.Has, Where, RecoveredWhere;
      var n := |obs| - 1;
      var front, o := obs[..n], obs[n];
      assert obs == front + [o];
      TallyIsCount(front, group, kind);
      TallyOfNext(front, o, group);
      WhereNext(front, o, kind);
    }
  }

  lemma WhereNext(obs: seq<Observation>, o: Observation, kind: Kind)
    ensures |Where(obs + [o], kind)| == |Where(obs, kind)| + if kind(o) then 1 else 0
    ensures |RecoveredWhere(obs + [o], kind)| == |RecoveredWhere(obs, kind)| + if kind(o) && o.recovered then 1 else 0
  {
    OneMore(obs, o, kind);
    OneMore(obs, o, (x: Observation) => kind(x) && x.recovered);
    AsWhere(obs, kind);
    AsWhere(obs + [o], kind);
  }

  lemma AsWhere(obs: seq<Observation>, kind: Kind)
    ensures RecoveredWhere(obs, kind) == Where(obs, (x: Observation) => kind(x) && x.recovered)
  {
  }

  lemma OneMore(obs: seq<Observation>, o: Observation, kind: Kind)
    ensures |Where(obs + [o], kind)| == |Where(obs, kind)| + if kind(o) then 1 else 0
  {
    var n := |obs|;
    assert Where(obs + [o], kind) == Where(obs, kind) + if kind(o) then {n} else {};
  }

  /** An estimate that so much evidence and a pseudo-count at the parent make. */
  ghost predicate Weighs(estimate: real, obs: seq<Observation>, kind: Kind, m: real, parent: real) {
    Mul(estimate, |Where(obs, kind)| as real + m) == |RecoveredWhere(obs, kind)| as real + Mul(m, parent)
  }

  lemma WeighsIff(estimate: real, counts: Counts, m: real, parent: real)
    requires m > 0.0
    ensures Shrunk(counts, m, parent).Ok?
    ensures Mul(Shrunk(counts, m, parent).value, counts.trials as real + m) == counts.successes as real + Mul(m, parent)
    ensures Mul(estimate, counts.trials as real + m) == counts.successes as real + Mul(m, parent) ==>
              Shrunk(counts, m, parent).value == estimate
    ensures counts.trials == 0 && counts.successes == 0 ==> Shrunk(counts, m, parent).value == parent
  {
    var w, x := counts.trials as real + m, counts.successes as real + m * parent;
    assert x / w * w == x;
    if estimate * w == x {
      CancelReal(x / w, estimate, w);
    }
    if counts.trials == 0 && counts.successes == 0 {
      CancelReal(x / w, parent, w);
    }
  }

  ghost predicate IsRate(rate: real, obs: seq<Observation>) {
    && Mul(rate, |obs| as real) == |RecoveredWhere(obs, Any())| as real
    && (obs == [] ==> rate == 0.0)
  }

  /** A cell is made of the log's counts, level by level: the overall rate, the action's estimate towards it, the
      cause's towards that, and the leaf's towards the cause's, which the cell names as its parent. With nothing at a
      level, the estimate is that of the level above. */
  lemma CellIsHierarchical(obs: seq<Observation>, m: real, action: EvaluatedAction, cause: ObservedCause, payday: bool)
    returns (overall: real, a: real, c: real)
    requires m > 0.0
    ensures IsRate(overall, obs)
    ensures Weighs(a, obs, Took(action), m, overall)
    ensures Weighs(c, obs, TookFor(action, cause), m, a)
    ensures var cell := CellOf(obs, m, action, cause, payday);
            var leaf := TookForAt(action, cause, payday);
            && cell.Ok? && cell.value.parentProbability == c
            && Weighs(cell.value.probability, obs, leaf, m, c)
            && cell.value.trials == |Where(obs, leaf)| && cell.value.successes == |RecoveredWhere(obs, leaf)|
            && (Where(obs, leaf) == {} ==> cell.value.probability == c)
    ensures Where(obs, TookFor(action, cause)) == {} ==> c == a
    ensures Where(obs, Took(action)) == {} ==> a == overall
  {
    var leaf := TookForAt(action, cause, payday);
    CountsAre(obs, action, cause, payday);
    Everywhere(obs);
    hide Tally, Shrunk, Rate, Mul, Group.Has, Where, RecoveredWhere;
    overall := Rate(Tally(obs, Everything));
    RecoveredAreAmong(obs, Any());
    RateTimes(Tally(obs, Everything));
    WeighsIff(0.0, Tally(obs, ByAction(action)), m, overall);
    a := Shrunk(Tally(obs, ByAction(action)), m, overall).value;
    WeighsIff(0.0, Tally(obs, ByCause(action, cause)), m, a);
    c := Shrunk(Tally(obs, ByCause(action, cause)), m, a).value;
    WeighsIff(0.0, Tally(obs, ByLeaf(action, cause, payday)), m, c);
  }

  lemma CountsAre(obs: seq<Observation>, action: EvaluatedAction, cause: ObservedCause, payday: bool)
    ensures Tally(obs, Everything) == Counted(obs, Any())
    ensures Tally(obs, ByAction(action)) == Counted(obs, Took(action))
    ensures Tally(obs, ByCause(action, cause)) == Counted(obs, TookFor(action, cause))
    ensures Tally(obs, ByLeaf(action, cause, payday)) == Counted(obs, TookForAt(action, cause, payday))
  {
    hide Tally;
    TallyIsCount(obs, Everything, Any());
    TallyIsCount(obs, ByAction(action), Took(action));
    TallyIsCount(obs, ByCause(action, cause), TookFor(action, cause));
    TallyIsCount(obs, ByLeaf(action, cause, payday), TookForAt(action, cause, payday));
  }

  ghost function Counted(obs: seq<Observation>, kind: Kind): Counts {
    Counts(|RecoveredWhere(obs, kind)|, |Where(obs, kind)|)
  }

  lemma Everywhere(obs: seq<Observation>)
    ensures |Where(obs, Any())| == |obs|
  {
    TallyIsCount(obs, Everything, Any());
    AllTried(obs);
  }

  lemma {:induction false} AllTried(obs: seq<Observation>)
    ensures Tally(obs, Everything).trials == |obs|
  {
    if obs != [] {
      AllTried(obs[..|obs| - 1]);
    }
  }

  lemma RecoveredAreAmong(obs: seq<Observation>, kind: Kind)
    ensures |RecoveredWhere(obs, kind)| <= |Where(obs, kind)|
  {
    var all, some := Where(obs, kind), RecoveredWhere(obs, kind);
    assert all == some + (all - some);
  }

  lemma RateTimes(counts: Counts)
    requires counts.successes <= counts.trials
    ensures Mul(Rate(counts), counts.trials as real) == counts.successes as real
    ensures counts.trials == 0 ==> Rate(counts) == 0.0
  {
  }

  /** Those equations leave no other cell. */
  lemma CellIsDetermined(obs: seq<Observation>, m: real, action: EvaluatedAction, cause: ObservedCause, payday: bool,
                         overall: real, a: real, c: real, p: real)
    requires m > 0.0
    requires IsRate(overall, obs) && Weighs(a, obs, Took(action), m, overall)
    requires Weighs(c, obs, TookFor(action, cause), m, a)
    requires Weighs(p, obs, TookForAt(action, cause, payday), m, c)
    ensures CellOf(obs, m, action, cause, payday).Ok?
    ensures CellOf(obs, m, action, cause, payday).value.probability == p
  {
    var overall', a', c' := CellIsHierarchical(obs, m, action, cause, payday);
    hide CellOf, Mul, Tally;
    SameRate(overall, overall', obs);
    var byAction := Took(action);
    var byCause := TookFor(action, cause);
    var leaf := TookForAt(action, cause, payday);
    SameWeight(a, a', obs, byAction, m, overall);
    SameWeight(c, c', obs, byCause, m, a);
    SameWeight(p, CellOf(obs, m, action, cause, payday).value.probability, obs, leaf, m, c);
  }

  lemma SameRate(x: real, y: real, obs: seq<Observation>)
    requires IsRate(x, obs) && IsRate(y, obs)
    ensures x == y
  {
    if obs != [] {
      CancelMul(x, y, |obs| as real);
    }
  }

  lemma SameWeight(x: real, y: real, obs: seq<Observation>, kind: Kind, m: real, parent: real)
    requires m > 0.0 && Weighs(x, obs, kind, m, parent) && Weighs(y, obs, kind, m, parent)
    ensures x == y
  {
    CancelMul(x, y, |Where(obs, kind)| as real + m);
  }

  lemma CancelMul(x: real, y: real, w: real)
    requires w > 0.0 && Mul(x, w) == Mul(y, w)
    ensures x == y
  {
    CancelReal(x, y, w);
  }

  /** A code means a dead mandate exactly when it says expired or revoked; and every cause has its codes. */
  lemma CodesMean(context: Context)
    ensures var code := if context.errorCode.Some? then context.errorCode.value else "";
            && (context.Cause() == MandateDead <==> code in {"SIM_MANDATE_EXPIRED", "SIM_MANDATE_REVOKED"})
            && (context.Cause() == InstrumentDead <==> code in {"SIM_INSTRUMENT_EXPIRED"})
            && (context.Cause() == InsufficientFunds <==> code in {"SIM_INSUFFICIENT_FUNDS"})
            && (context.Cause() == IssuerTrouble <==> code in {"SIM_ISSUER_UNAVAILABLE", "SIM_ISSUER_TIMEOUT"})
            && (context.Cause() == Declined <==> code in {"SIM_DECLINED_BY_ISSUER"})
            && (context.Payday() <==> context.prePayday == Some(true))
  {
    var a, b, c := "SIM_MANDATE_EXPIRED", "SIM_MANDATE_REVOKED", "SIM_INSTRUMENT_EXPIRED";
    var d, e, f, g := "SIM_INSUFFICIENT_FUNDS", "SIM_ISSUER_UNAVAILABLE", "SIM_ISSUER_TIMEOUT",
        "SIM_DECLINED_BY_ISSUER";
    assert a[4] == 'M' && b[4] == 'M' && c[4..7] == "INS" && d[4..7] == "INS" && e[4..7] == "ISS" && f[4..7] == "ISS";
    assert a[12] == 'E' && b[12] == 'R' && c[7] == 'T' && d[7] == 'U' && e[11] == 'U' && f[11] == 'T' && g[4] == 'D';
  }

  /** A prediction is nought exactly when a mandate is dead and the action does something, or when nothing in the log
      ever recovered. */
  lemma PredictionIsNoughtIff(obs: seq<Observation>, m: real, context: Context, action: EvaluatedAction)
    requires m > 0.0
    ensures Prediction(obs, m, context, action).Ok?
    ensures Prediction(obs, m, context, action).value == 0.0 <==>
            (action != NoAction && context.Cause() == MandateDead) || forall o :: o in obs ==> !o.recovered
  {
    var cause, payday := context.Cause(), context.Payday();
    var overall, a, c := CellIsHierarchical(obs, m, action, cause, payday);
    var byAction := Took(action);
    var byCause := TookFor(action, cause);
    var leaf := TookForAt(action, cause, payday);
    var p := CellOf(obs, m, action, cause, payday).value.probability;
    NoughtRate(overall, obs);
    NoughtWeight(a, obs, byAction, m, overall);
    NoughtWeight(c, obs, byCause, m, a);
    NoughtWeight(p, obs, leaf, m, c);
    hide CellOf, Tally;
  }

  lemma NoughtRate(rate: real, obs: seq<Observation>)
    requires IsRate(rate, obs)
    ensures rate >= 0.0
    ensures rate == 0.0 <==> forall o :: o in obs ==> !o.recovered
  {
    var some := RecoveredWhere(obs, Any());
    if o :| o in obs && o.recovered {
      var i :| 0 <= i < |obs| && obs[i] == o;
      assert i in some;
      assert rate * |obs| as real > 0.0;
    } else {
      assert some == {};
      if obs != [] {
        CancelMul(rate, 0.0, |obs| as real);
      }
    }
    SignOf(rate, |obs| as real);
  }

  lemma SignOf(x: real, w: real)
    ensures w > 0.0 && Mul(x, w) >= 0.0 ==> x >= 0.0
    ensures w > 0.0 && Mul(x, w) > 0.0 ==> x > 0.0
    ensures Mul(0.0, w) == 0.0
  {
    if w > 0.0 && x < 0.0 {
      assert (-x) * w > 0.0;
    }
  }

  lemma NoughtWeight(x: real, obs: seq<Observation>, kind: Kind, m: real, parent: real)
    requires m > 0.0 && parent >= 0.0 && Weighs(x, obs, kind, m, parent)
    ensures x >= 0.0
    ensures x == 0.0 <==> parent == 0.0 && forall o :: o in obs && kind(o) ==> !o.recovered
  {
    var w := |Where(obs, kind)| as real + m;
    var some := RecoveredWhere(obs, kind);
    SignOf(x, w);
    if o :| o in obs && kind(o) && o.recovered {
      var i :| 0 <= i < |obs| && obs[i] == o;
      assert i in some;
      assert m * parent >= 0.0;
    } else {
      assert some == {};
      if parent > 0.0 {
        assert m * parent > 0.0;
      } else {
        CancelMul(x, 0.0, w);
      }
    }
  }

  /** Reordering the log, or rewriting its answer key, changes no prediction and no row of the summary. */
  lemma {:induction false} PredictionsReadOnlyTheLog(episodes: seq<Episode>, others: seq<Episode>, m: real,
                                                         context: Context, action: EvaluatedAction)
    requires multiset(Observations(episodes)) == multiset(Observations(others))
    ensures Prediction(Observations(episodes), m, context, action) ==
            Prediction(Observations(others), m, context, action)
    ensures SummaryRows(Observations(episodes), m, 0) == SummaryRows(Observations(others), m, 0)
  {
    SameCells(Observations(episodes), Observations(others), m, action, context.Cause(), context.Payday());
    SameRows(Observations(episodes), Observations(others), m, 0);
  }

  lemma SameCells(obs: seq<Observation>, others: seq<Observation>, m: real, action: EvaluatedAction,
                  cause: ObservedCause, payday: bool)
    requires multiset(obs) == multiset(others)
    ensures CellOf(obs, m, action, cause, payday) == CellOf(others, m, action, cause, payday)
  {
    hide Tally, Shrunk, Rate;
    OrderDoesNotMatter(obs, others, Everything);
    OrderDoesNotMatter(obs, others, ByAction(action));
    OrderDoesNotMatter(obs, others, ByCause(action, cause));
    OrderDoesNotMatter(obs, others, ByLeaf(action, cause, payday));
  }

  lemma {:induction false} SameRows(obs: seq<Observation>, others: seq<Observation>, m: real, i: nat)
    requires multiset(obs) == multiset(others) && i <= LEAVES
    ensures SummaryRows(obs, m, i) == SummaryRows(others, m, i)
    decreases LEAVES - i
  {
    hide Tally, CellOf, Rate, LeafAt;
    if i < LEAVES {
      var leaf := LeafAt(i);
      SameRows(obs, others, m, i + 1);
      SameCells(obs, others, m, leaf.0, leaf.1, leaf.2);
      OrderDoesNotMatter(obs, others, GroupOf(leaf));
    }
  }

  // ---- the summary accounts for the log -----------------------------------------------------------

  function IndexOfAction(a: EvaluatedAction): nat {
    match a
    case CustomerNudge => 0
    case NoAction => 1
    case RetryImmediate => 2
    case RetryScheduled => 3
    case SwitchRail => 4
  }

  function IndexOfCause(c: ObservedCause): nat {
    match c
    case Declined => 0
    case InstrumentDead => 1
    case InsufficientFunds => 2
    case IssuerTrouble => 3
    case MandateDead => 4
    case NotSaid => 5
  }

  function IndexOf(o: Observation): (i: nat)
    ensures i < LEAVES
  {
    12 * IndexOfAction(o.action) + 2 * IndexOfCause(o.cause) + if o.payday then 1 else 0
  }

  lemma LeafOfObservation(o: Observation, i: nat)
    requires i < LEAVES
    ensures GroupOf(LeafAt(i)).Has(o) <==> i == IndexOf(o)
  {
    var a, c := i / 12, i / 2 % 6;
    assert i == 12 * a + 2 * c + i % 2;
    assert IndexOfAction(ACTIONS[a]) == a;
    assert IndexOfCause(CAUSES[c]) == c;
    assert ACTIONS[a] == o.action <==> a == IndexOfAction(o.action);
    assert CAUSES[c] == o.cause <==> c == IndexOfCause(o.cause);
  }

  function TotalTrials(rows: seq<Row>): nat {
    if rows == [] then 0 else rows[0].trials + TotalTrials(rows[1..])
  }

  function TrialsFrom(obs: seq<Observation>, i: nat): nat
    requires i <= LEAVES
    decreases LEAVES - i
  {
    if i == LEAVES then 0 else Tally(obs, GroupOf(LeafAt(i))).trials + TrialsFrom(obs, i + 1)
  }

  lemma {:induction false} TrialsOfNext(obs: seq<Observation>, o: Observation, i: nat)
    requires i <= LEAVES
    ensures TrialsFrom(obs + [o], i) == TrialsFrom(obs, i) + if i <= IndexOf(o) then 1 else 0
    decreases LEAVES - i
  {
    hide Tally, LeafAt, IndexOf, GroupOf, Group.Has;
    if i < LEAVES {
      TrialsOfNext(obs, o, i + 1);
      TallyOfNext(obs, o, GroupOf(LeafAt(i)));
      LeafOfObservation(o, i);
    }
  }

  lemma {:induction false} NoTrialsFrom(i: nat)
    requires i <= LEAVES
    ensures TrialsFrom([], i) == 0
    decreases LEAVES - i
  {
    hide LeafAt;
    if i < LEAVES {
      NoTrialsFrom(i + 1);
    }
  }

  lemma {:induction false} LeavesCoverLog(obs: seq<Observation>)
    ensures TrialsFrom(obs, 0) == |obs|
  {
    hide TrialsFrom;
    if obs == [] {
      NoTrialsFrom(0);
    } else {
      var front, o := obs[..|obs| - 1], obs[|obs| - 1];
      assert obs == front + [o];
      LeavesCoverLog(front);
      TrialsOfNext(front, o, 0);
    }
  }

  /** A row gives its leaf's evidence, the share that recovered, and the model's estimate. */
  ghost predicate Describes(row: Row, obs: seq<Observation>, m: real) {
    var kind := TookForAt(row.leaf.0, row.leaf.1, row.leaf.2);
    var cell := CellOf(obs, m, row.leaf.0, row.leaf.1, row.leaf.2);
    && row.trials > 0 && row.trials == |Where(obs, kind)|
    && Mul(row.observedRate, row.trials as real) == |RecoveredWhere(obs, kind)| as real
    && cell.Ok? && row.fitted == cell.value.probability
  }

  lemma RowDescribes(obs: seq<Observation>, m: real, i: nat)
    requires m > 0.0 && i < LEAVES && Tally(obs, GroupOf(LeafAt(i))).trials > 0
    ensures var leaf := LeafAt(i);
            var counts, cell := Tally(obs, GroupOf(leaf)), CellOf(obs, m, leaf.0, leaf.1, leaf.2);
            cell.Ok? && Describes(Row(leaf, counts.trials, Rate(counts), cell.value.probability), obs, m)
  {
    hide LeafAt, Tally;
    var leaf := LeafAt(i);
    CellsAreProbabilities(obs, m, leaf.0, leaf.1, leaf.2);
    CountsAre(obs, leaf.0, leaf.1, leaf.2);
    RecoveredAreAmong(obs, TookForAt(leaf.0, leaf.1, leaf.2));
    RateTimes(Tally(obs, GroupOf(leaf)));
    hide Rate, CellOf, Mul, Where, RecoveredWhere;
  }

  predicate HasRow(rows: seq<Row>, leaf: Leaf) {
    exists k :: 0 <= k < |rows| && rows[k].leaf == leaf
  }

  lemma HasRowAfter(row: Row, rows: seq<Row>, leaf: Leaf)
    requires row.leaf == leaf || HasRow(rows, leaf)
    ensures HasRow([row] + rows, leaf)
  {
    var longer := [row] + rows;
    if row.leaf == leaf {
      assert longer[0].leaf == leaf;
    } else {
      var k :| 0 <= k < |rows| && rows[k].leaf == leaf;
      assert longer[k + 1].leaf == leaf;
    }
  }

  /** The summary has a row for every leaf with evidence, and its trials add up to the log. */
  lemma {:induction false} SummaryAccountsFrom(obs: seq<Observation>, m: real, i: nat)
    requires m > 0.0 && i <= LEAVES
    ensures SummaryRows(obs, m, i).Ok?
    ensures var rows := SummaryRows(obs, m, i).value;
            && TotalTrials(rows) == TrialsFrom(obs, i)
            && (forall k :: 0 <= k < |rows| ==> Describes(rows[k], obs, m))
            && forall j :: i <= j < LEAVES && Tally(obs, GroupOf(LeafAt(j))).trials > 0 ==> HasRow(rows, LeafAt(j))
    decreases LEAVES - i
  {
    hide Tally, LeafAt, CellOf, Rate, GroupOf, HasRow, Describes;
    if i < LEAVES {
      var leaf, later := LeafAt(i), SummaryRows(obs, m, i + 1);
      var counts := Tally(obs, GroupOf(leaf));
      SummaryAccountsFrom(obs, m, i + 1);
      CellsAreProbabilities(obs, m, leaf.0, leaf.1, leaf.2);
      if counts.trials > 0 {
        var row := Row(leaf, counts.trials, Rate(counts), CellOf(obs, m, leaf.0, leaf.1, leaf.2).value.probability);
        var rows := [row] + later.value;
        RowDescribes(obs, m, i);
        assert SummaryRows(obs, m, i) == Ok(rows) && rows[1..] == later.value;
        forall j | i <= j < LEAVES && Tally(obs, GroupOf(LeafAt(j))).trials > 0 ensures HasRow(rows, LeafAt(j)) {
          HasRowAfter(row, later.value, LeafAt(j));
        }
      }
    }
  }

  lemma {:induction false} SummaryAccountsForLog(obs: seq<Observation>, m: real, leaf: nat)
    requires m > 0.0 && leaf < LEAVES
    ensures var rows := SummaryRows(obs, m, 0);
            && rows.Ok? && TotalTrials(rows.value) == |obs|
            && (forall k :: 0 <= k < |rows.value| ==> Describes(rows.value[k], obs, m))
            && (Tally(obs, GroupOf(LeafAt(leaf))).trials > 0 ==> HasRow(rows.value, LeafAt(leaf)))
  {
    hide SummaryRows, TrialsFrom, TotalTrials, Tally, LeafAt, GroupOf, HasRow, Describes;
    LeavesCoverLog(obs);
    SummaryAccountsFrom(obs, m, 0);
  }

  function CauseName(cause: ObservedCause): string {
    match cause
    case InsufficientFunds => "INSUFFICIENT_FUNDS"
    case IssuerTrouble => "ISSUER_TROUBLE"
    case Declined => "DECLINED"
    case InstrumentDead => "INSTRUMENT_DEAD"
    case MandateDead => "MANDATE_DEAD"
    case NotSaid => "UNKNOWN"
  }

  /** By the name of the action, then of the cause, then "no" before "yes". */
  predicate LeafPrecedes(a: Leaf, b: Leaf) {
    || Precedes(a.0.Value(), b.0.Value())
    || (a.0 == b.0 && Precedes(CauseName(a.1), CauseName(b.1)))
    || (a.0 == b.0 && a.1 == b.1 && !a.2 && b.2)
  }

  lemma ActionsAreSorted(i: nat, j: nat)
    requires i < j < 5
    ensures Precedes(ACTIONS[i].Value(), ACTIONS[j].Value())
  {
    RetriesAreSorted();
    hide Precedes;
    if !(i == 2 && j == 3) {
      FirstLettersDecide(ACTIONS[i].Value(), ACTIONS[j].Value());
    }
  }

  lemma RetriesAreSorted()
    ensures Precedes("RETRY_IMMEDIATE", "RETRY_SCHEDULED")
  {
    AfterSameFront("RETRY_", "IMMEDIATE", "SCHEDULED");
    assert "RETRY_" + "IMMEDIATE" == "RETRY_IMMEDIATE" && "RETRY_" + "SCHEDULED" == "RETRY_SCHEDULED";
  }

  lemma CausesAreSorted(i: nat, j: nat)
    requires i < j < 6
    ensures Precedes(CauseName(CAUSES[i]), CauseName(CAUSES[j]))
  {
    CausesWithI();
    hide Precedes;
    if !(1 <= i && j <= 3) {
      FirstLettersDecide(CauseName(CAUSES[i]), CauseName(CAUSES[j]));
    }
  }

  lemma CausesWithI()
    ensures Precedes("INSTRUMENT_DEAD", "INSUFFICIENT_FUNDS")
    ensures Precedes("INSTRUMENT_DEAD", "ISSUER_TROUBLE")
    ensures Precedes("INSUFFICIENT_FUNDS", "ISSUER_TROUBLE")
  {
    hide Precedes;
    ByThirdLetter();
    AfterI("NSTRUMENT_DEAD");
    AfterI("NSUFFICIENT_FUNDS");
    assert "I" + "NSTRUMENT_DEAD" == "INSTRUMENT_DEAD";
    assert "I" + "NSUFFICIENT_FUNDS" == "INSUFFICIENT_FUNDS";
  }

  lemma ByThirdLetter()
    ensures Precedes("INSTRUMENT_DEAD", "INSUFFICIENT_FUNDS")
  {
    hide Precedes;
    AfterSameFront("INS", "TRUMENT_DEAD", "UFFICIENT_FUNDS");
    assert "INS" + "TRUMENT_DEAD" == "INSTRUMENT_DEAD";
    assert "INS" + "UFFICIENT_FUNDS" == "INSUFFICIENT_FUNDS";
  }

  lemma AfterI(rest: string)
    requires rest != [] && rest[0] == 'N'
    ensures Precedes("I" + rest, "ISSUER_TROUBLE")
  {
    hide Precedes;
    AfterSameFront("I", rest, "SSUER_TROUBLE");
    assert "I" + "SSUER_TROUBLE" == "ISSUER_TROUBLE";
  }

  lemma PartsOfPlace(i: nat)
    ensures i == 12 * (i / 12) + 2 * (i / 2 % 6) + i % 2
    ensures 0 <= i / 2 % 6 < 6 && 0 <= i % 2 < 2
    ensures i < LEAVES ==> i / 12 < 5
  {
  }

  lemma LeavesAreSorted(i: nat, j: nat)
    requires i < j < LEAVES
    ensures LeafPrecedes(LeafAt(i), LeafAt(j))
  {
    hide Precedes, EvaluatedAction.Value, CauseName;
    var a, b, c, d := i / 12, j / 12, i / 2 % 6, j / 2 % 6;
    PartsOfPlace(i);
    PartsOfPlace(j);
    if a < b {
      ActionsAreSorted(a, b);
    } else if c < d {
      CausesAreSorted(c, d);
    }
  }

  /** The rows come in the order of their leaves' names. */
  lemma {:induction false} SummaryIsSorted(obs: seq<Observation>, m: real, i: nat)
    requires i <= LEAVES && SummaryRows(obs, m, i).Ok?
    ensures var rows := SummaryRows(obs, m, i).value;
            && (forall k :: 0 <= k < |rows| ==> exists j :: i <= j < LEAVES && rows[k].leaf == LeafAt(j))
            && forall k, l :: 0 <= k < l < |rows| ==> LeafPrecedes(rows[k].leaf, rows[l].leaf)
    decreases LEAVES - i
  {
    hide Tally, LeafAt, CellOf, Rate, GroupOf, LeafPrecedes;
    if i < LEAVES {
      SummaryIsSorted(obs, m, i + 1);
      var rows, later := SummaryRows(obs, m, i).value, SummaryRows(obs, m, i + 1).value;
      if rows != later {
        assert rows == [rows[0]] + later && rows[0].leaf == LeafAt(i);
        forall l | 0 < l < |rows| ensures LeafPrecedes(rows[0].leaf, rows[l].leaf) {
          var j :| i + 1 <= j < LEAVES && later[l - 1].leaf == LeafAt(j);
          LeavesAreSorted(i, j);
        }
        forall k | 0 <= k < |rows| ensures exists j :: i <= j < LEAVES && rows[k].leaf == LeafAt(j) {
          if k > 0 {
            var j :| i + 1 <= j < LEAVES && later[k - 1].leaf == LeafAt(j);
          } else {
            assert rows[k].leaf == LeafAt(i);
          }
        }
      }
    }
  }

  /** A dead mandate is never predicted to recover through any action, whatever the log says; doing nothing is
      estimated like everything else. */
  lemma DeadMandateIsStructural(obs: seq<Observation>, m: real, context: Context, action: EvaluatedAction)
    requires m > 0.0
    ensures Prediction(obs, m, context, action).Ok? && IsProbability(Prediction(obs, m, context, action).value)
    ensures context.Cause() == MandateDead && action != NoAction ==> Prediction(obs, m, context, action).value == 0.0
    ensures Prediction(obs, m, context, NoAction).Ok? &&
            Prediction(obs, m, context, NoAction).value ==
            CellOf(obs, m, NoAction, context.Cause(), context.Payday()).value.probability
  {
    hide CellOf;
    CellsAreProbabilities(obs, m, action, context.Cause(), context.Payday());
    CellsAreProbabilities(obs, m, NoAction, context.Cause(), context.Payday());
  }
}
