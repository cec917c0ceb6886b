/** Carrying out a recovery at the provider. */
module Effector {
  // Look for a row, reconcile, record the intent, call, settle: all in one transaction that a crash undoes, against a
  // provider that a crash does not.

  import opened Common
  import opened IdempotencyKeys

  datatype PaymentState = Captured | Authorized | Failed | Pending | Refunded | NotFound | Unknown {
    predicate MoneyMoved() {
      this == Captured || this == Authorized
    }

    predicate SafeToRetry() {
      this == Failed || this == NotFound
    }

    /** The provider said how it ended, and it did not end with the money. */
    predicate Negative() {
      this == Failed || this == NotFound || this == Refunded
    }
  }

  // ---- reconciliation -----------------------------------------------------------------

  datatype Verdict = Safe | AlreadyPaid | Unresolved

  /** What is known of the original payment: no id at the provider, a read that failed, or what was read. */
  datatype Evidence = NoPayment | ReadFailed | Reported(state: PaymentState)

  function Check(evidence: Evidence): Verdict {
    match evidence
    case NoPayment => Safe
    case ReadFailed => Unresolved
    case Reported(state) =>
      if state.MoneyMoved() then AlreadyPaid else if state.SafeToRetry() then Safe else Unresolved
  }

  /** Affirmative evidence that the original payment took no money. */
  predicate Clears(evidence: Evidence) {
    evidence == NoPayment || evidence == Reported(Failed) || evidence == Reported(NotFound)
  }

  // ---- the world ------------------------------------------------------------------------

  /** What an operation is recorded and sent under. The attempt is the tenant's. */
  datatype Key = Key(attempt: string, operation: Operation, ordinal: int)

  /** A call the provider carried out: what it told, whether it took money, and the evidence that let it through. */
  datatype Made = Made(key: Key, told: PaymentState, took: bool, evidence: Option<Evidence>)

  datatype Row = Row(settled: bool, state: PaymentState)

  datatype Outcome = Recovered | NotRecovered | LinkCreated | Indeterminate

  datatype Record = Executed(key: Key, state: Option<PaymentState>) | Blocked(key: Key, verdict: Verdict)

  /** A worker inside the transaction: it has found no row, it has evidence and an uncommitted intent, or it has
      called; a reply that never came is `None`. */
  datatype Phase =
    | Idle
    | Looked(key: Key)
    | Intending(key: Key, evidence: Option<Evidence>)
    | Called(key: Key, reply: Option<PaymentState>)
  {
    predicate Under(k: Key) {
      !Idle? && key == k
    }
  }

  datatype World = World(rows: map<Key, Row>, ledger: seq<Record>, calls: seq<Made>, workers: map<nat, Phase>) {
    function Of(w: nat): Phase {
      if w in workers then workers[w] else Idle
    }

    function Put(w: nat, phase: Phase): World {
      this.(workers := workers[w := phase])
    }
  }

  const START := World(map[], [], [], map[])

  datatype Step =
    | Begin(w: nat, key: Key)
    | Reconcile(w: nat, evidence: Evidence)
    | Call(w: nat, told: PaymentState, took: bool, delivered: bool)
    | LoseCall(w: nat)
    | Commit(w: nat)
    | Crash(w: nat)

  /** The row a finished call leaves. The row of a link is settled as pending, whatever the customer does later. */
  function RowFor(key: Key, reply: Option<PaymentState>): Row {
    if reply.None? then Row(false, Unknown)
    else if key.operation == PaymentLink then Row(true, Pending)
    else Row(true, reply.value)
  }

  /** What a finished call adds to the ledger: for a link whose call raised, nothing. */
  function Entry(key: Key, reply: Option<PaymentState>): seq<Record> {
    if key.operation == PaymentLink && reply.None? then [] else [Executed(key, reply)]
  }

  /** Keys are only made for ordinals from one, and this service retries and creates links. */
  predicate Permitted(key: Key) {
    key.ordinal >= 1 && (key.operation == Retry || key.operation == PaymentLink)
  }

  predicate Enabled(s: World, step: Step) {
    match step
    case Begin(w, key) => s.Of(w).Idle? && Permitted(key)
    case Reconcile(w, evidence) => s.Of(w).Looked?
    case Call(w, told, took, delivered) => s.Of(w).Intending?
    case LoseCall(w) => s.Of(w).Intending?
    case Commit(w) => s.Of(w).Called?
    case Crash(w) => true
  }

  function Apply(s: World, step: Step): World
    requires Enabled(s, step)
  {
    match step
    case Begin(w, key) =>
      // A committed row answers by itself, and creating a link takes no evidence.
      if key in s.rows then s
      else if key.operation == Retry then s.Put(w, Looked(key))
      else s.Put(w, Intending(key, None))
    case Reconcile(w, evidence) =>
      var key := s.Of(w).key;
      if Check(evidence) == Safe then s.Put(w, Intending(key, Some(evidence)))
      else s.(ledger := s.ledger + [Blocked(key, Check(evidence))]).Put(w, Idle)
    case Call(w, told, took, delivered) =>
      var key := s.Of(w).key;
      s.(calls := s.calls + [Made(key, told, took, s.Of(w).evidence)])
       .Put(w, Called(key, if delivered then Some(told) else None))
    case LoseCall(w) => s.Put(w, Called(s.Of(w).key, None))
    case Commit(w) =>
      var key, reply := s.Of(w).key, s.Of(w).reply;
      // The unique key on the row aborts the whole transaction, ledger entry included.
      if key in s.rows then s.Put(w, Idle)
      else s.(rows := s.rows[key := RowFor(key, reply)], ledger := s.ledger + Entry(key, reply)).Put(w, Idle)
    case Crash(w) => s.Put(w, Idle)
  }

  /** Where a sequence of steps leads, if each is enabled in turn. */
  function After(steps: seq<Step>): Option<World> {
    if steps == [] then Some(START)
    else
      var before, step := After(steps[..|steps| - 1]), steps[|steps| - 1];
      if before.Some? && Enabled(before.value, step) then Some(Apply(before.value, step)) else None
  }

  predicate IsRun(steps: seq<Step>, s: World) {
    After(steps) == Some(s)
  }

  // ---- what every run keeps ---------------------------------------------------------------

  function Entries(ledger: seq<Record>, key: Key): nat {
    if ledger == [] then 0
    else
      var last := ledger[|ledger| - 1];
      Entries(ledger[..|ledger| - 1], key) + if last.Executed? && last.key == key then 1 else 0
  }

  predicate Told(calls: seq<Made>, key: Key, state: PaymentState) {
    exists i :: 0 <= i < |calls| && calls[i].key == key && calls[i].told == state
  }

  /** An unsettled row says nothing; a settled one says what a call under its key was told, or for a link that it is
      pending. A row has its entry in the ledger unless it is that of a link whose call raised. */
  ghost predicate KeyInv(s: World, key: Key) {
    && (key in s.rows && !s.rows[key].settled ==> s.rows[key].state == Unknown)
    && (key in s.rows && s.rows[key].settled && key.operation != PaymentLink ==>
          Told(s.calls, key, s.rows[key].state))
    && (key in s.rows && s.rows[key].settled && key.operation == PaymentLink ==> s.rows[key].state == Pending)
    && Entries(s.ledger, key) ==
       if key in s.rows && (key.operation != PaymentLink || s.rows[key].settled) then 1 else 0
  }

  ghost predicate WorkerInv(s: World, w: nat) {
    var phase := s.Of(w);
    && (!phase.Idle? ==> Permitted(phase.key))
    && (phase.Looked? ==> phase.key.operation == Retry)
    && (phase.Intending? && phase.key.operation == Retry ==> phase.evidence.Some? && Clears(phase.evidence.value))
    && (phase.Called? && phase.reply.Some? ==> Told(s.calls, phase.key, phase.reply.value))
  }

  /** Every retry that reached the provider had affirmative evidence. */
  predicate CallInv(s: World, i: nat)
    requires i < |s.calls|
  {
    var made := s.calls[i];
    && Permitted(made.key)
    && (made.key.operation == Retry ==> made.evidence.Some? && Clears(made.evidence.value))
  }

  ghost predicate Inv(s: World) {
    && (forall key :: KeyInv(s, key))
    && (forall w: nat :: WorkerInv(s, w))
    && forall i: nat | i < |s.calls| :: CallInv(s, i)
  }

  lemma EntriesOfNext(ledger: seq<Record>, r: Record, key: Key)
    ensures Entries(ledger + [r], key) == Entries(ledger, key) + if r.Executed? && r.key == key then 1 else 0
  {
    assert (ledger + [r])[..|ledger|] == ledger;
  }

  lemma ToldBefore(calls: seq<Made>, next: Made, key: Key, state: PaymentState)
    requires Told(calls, key, state)
    ensures Told(calls + [next], key, state)
  {
    var i :| 0 <= i < |calls| && calls[i].key == key && calls[i].told == state;
    assert (calls + [next])[i] == calls[i];
  }

  lemma ToldNow(calls: seq<Made>, next: Made)
    ensures Told(calls + [next], next.key, next.told)
  {
    assert (calls + [next])[|calls|] == next;
  }

  lemma KeyInvKept(s: World, step: Step, key: Key)
    requires Inv(s) && Enabled(s, step)
    ensures KeyInv(Apply(s, step), key)
  {
    hide Entries, Told;
    assert KeyInv(s, key);
    match step
    case Call(w, told, took, delivered) =>
      var next := Made(s.Of(w).key, told, took, s.Of(w).evidence);
      if key in s.rows && Told(s.calls, key, s.rows[key].state) {
        ToldBefore(s.calls, next, key, s.rows[key].state);
      }
    case Commit(w) =>
      assert WorkerInv(s, w);
      CommitKeeps(s, w, key);
    case Reconcile(w, evidence) =>
      EntriesOfNext(s.ledger, Blocked(s.Of(w).key, Check(evidence)), key);
    case _ =>
  }

  lemma CommitKeeps(s: World, w: nat, key: Key)
    requires KeyInv(s, key) && WorkerInv(s, w) && Enabled(s, Commit(w))
    ensures KeyInv(Apply(s, Commit(w)), key)
  {
    hide Entries, Told;
    EntriesOfNext(s.ledger, Executed(s.Of(w).key, s.Of(w).reply), key);
    assert s.ledger + [] == s.ledger;
  }

  lemma WorkerInvKept(s: World, step: Step, w: nat)
    requires Inv(s) && Enabled(s, step)
    ensures WorkerInv(Apply(s, step), w)
  {
    hide Entries, Told;
    assert WorkerInv(s, w);
    assert WorkerInv(s, step.w);
    if step.Call? {
      var next := Made(s.Of(step.w).key, step.told, step.took, s.Of(step.w).evidence);
      ToldNow(s.calls, next);
      if s.Of(w).Called? && s.Of(w).reply.Some? {
        ToldBefore(s.calls, next, s.Of(w).key, s.Of(w).reply.value);
      }
    }
  }

  lemma CallInvKept(s: World, step: Step, i: nat)
    requires Inv(s) && Enabled(s, step) && i < |Apply(s, step).calls|
    ensures CallInv(Apply(s, step), i)
  {
    hide KeyInv;
    assert WorkerInv(s, step.w);
    if i < |s.calls| {
      assert CallInv(s, i);
    }
  }

  lemma InvKept(s: World, step: Step)
    requires Inv(s) && Enabled(s, step)
    ensures Inv(Apply(s, step))
  {
    hide KeyInv, WorkerInv, CallInv, Apply;
    forall key ensures KeyInv(Apply(s, step), key) {
      KeyInvKept(s, step, key);
    }
    forall w: nat ensures WorkerInv(Apply(s, step), w) {
      WorkerInvKept(s, step, w);
    }
    forall i: nat | i < |Apply(s, step).calls| ensures CallInv(Apply(s, step), i) {
      CallInvKept(s, step, i);
    }
  }

  lemma {:induction false} RunKeeps(steps: seq<Step>, s: World)
    requires IsRun(steps, s)
    ensures Inv(s)
  {
    hide KeyInv, WorkerInv, CallInv, Apply, Enabled;
    if steps == [] {
      StartKeeps();
    } else {
      var n := |steps| - 1;
      RunKeeps(steps[..n], After(steps[..n]).value);
      InvKept(After(steps[..n]).value, steps[n]);
    }
  }

  lemma StartKeeps()
    ensures Inv(START)
  {
  }

  /** Over every run of workers, lost replies, redeliveries and crashes, whatever the provider does, a retry reaches
      it only on affirmative evidence that the original payment took nothing. */
  lemma RetriesHaveEvidence(steps: seq<Step>, s: World, made: Made)
    requires IsRun(steps, s) && made in s.calls && made.key.operation == Retry
    ensures made.evidence.Some? && Clears(made.evidence.value)
  {
    RunKeeps(steps, s);
    var i: nat :| i < |s.calls| && s.calls[i] == made;
    assert CallInv(s, i);
  }

  /** A committed row has its execution in the ledger, once, exactly if it is that of a retry or its call returned. */
  lemma LedgerMatchesRows(steps: seq<Step>, s: World, key: Key)
    requires IsRun(steps, s)
    ensures Entries(s.ledger, key) ==
            if key in s.rows && (key.operation != PaymentLink || s.rows[key].settled) then 1 else 0
  {
    RunKeeps(steps, s);
    assert KeyInv(s, key);
  }

  /** So a link whose call raised is an operation that no ledger entry tells of. */
  lemma LinkRowWithoutLedger(key: Key) returns (steps: seq<Step>, s: World)
    requires key.operation == PaymentLink && key.ordinal >= 1
    ensures IsRun(steps, s) && key in s.rows && !s.rows[key].settled && s.ledger == []
  {
    steps, s := WholeRun([], START, 0, key, Reported(Failed), Pending, false, false);
    assert Entry(key, None) == [];
  }

  // ---- calls under one key --------------------------------------------------------------------

  function Calls(calls: seq<Made>, key: Key): nat {
    if calls == [] then 0
    else Calls(calls[..|calls| - 1], key) + if calls[|calls| - 1].key == key then 1 else 0
  }

  /** How often money was taken under a key. */
  function Takes(calls: seq<Made>, key: Key): nat {
    if calls == [] then 0
    else
      var last := calls[|calls| - 1];
      Takes(calls[..|calls| - 1], key) + if last.key == key && last.took then 1 else 0
  }

  lemma CallsOfNext(calls: seq<Made>, next: Made, key: Key)
    ensures Calls(calls + [next], key) == Calls(calls, key) + if next.key == key then 1 else 0
    ensures Takes(calls + [next], key) == Takes(calls, key) + if next.key == key && next.took then 1 else 0
  {
    assert (calls + [next])[..|calls|] == calls;
  }

  lemma TakesAreCalls(calls: seq<Made>, key: Key)
    ensures Takes(calls, key) <= Calls(calls, key)
  {
  }

  /** The workers inside the transaction under a key, and those of them that have called. */
  function InFlight(s: World, key: Key): set<nat> {
    set w | w in s.workers && s.workers[w].Under(key)
  }

  function Calling(s: World, key: Key): set<nat> {
    set w | w in s.workers && s.workers[w].Under(key) && s.workers[w].Called?
  }

  /** A worker begins under a key while another is inside. */
  predicate Overlaps(s: World, step: Step, key: Key) {
    step.Begin? && step.key == key && key !in s.rows && InFlight(s, key) != {}
  }

  /** A worker that has called under a key is lost. */
  predicate Strikes(s: World, step: Step, key: Key) {
    step.Crash? && s.Of(step.w).Called? && s.Of(step.w).key == key
  }

  /** A worker that has called under a key finds at its commit that another was first. */
  predicate Aborts(s: World, step: Step, key: Key) {
    step.Commit? && s.Of(step.w).Called? && s.Of(step.w).key == key && key in s.rows
  }

  datatype Tally = Tally(overlaps: nat, crashes: nat, aborts: nat)

  /** How often each of them happened in a run. */
  function Tallied(steps: seq<Step>, key: Key): Tally {
    if steps == [] || After(steps[..|steps| - 1]).None? then Tally(0, 0, 0)
    else
      var before, step := After(steps[..|steps| - 1]).value, steps[|steps| - 1];
      Counted(Tallied(steps[..|steps| - 1], key), before, step, key)
  }

  function Counted(t: Tally, s: World, step: Step, key: Key): Tally {
    Tally(t.overlaps + (if Overlaps(s, step, key) then 1 else 0),
          t.crashes + (if Strikes(s, step, key) then 1 else 0),
          t.aborts + (if Aborts(s, step, key) then 1 else 0))
  }

  function Recorded(s: World, key: Key): nat {
    if key in s.rows then 1 else 0
  }

  /** Each call under a key is that of a worker still inside, of the one that wrote the row, of one that was aborted
      or of one that crashed; and without a row nobody was aborted. */
  ghost predicate Accounted(s: World, t: Tally, key: Key) {
    && |InFlight(s, key)| + t.aborts + Recorded(s, key) <= t.overlaps + 1
    && (key !in s.rows ==> t.aborts == 0)
    && Calls(s.calls, key) <= |Calling(s, key)| + Recorded(s, key) + t.aborts + t.crashes
  }

  function One(b: bool): nat {
    if b then 1 else 0
  }

  /** Moving one worker changes who is inside by at most that worker. */
  lemma WorkerMoves(s: World, s': World, w: nat, phase: Phase, key: Key)
    requires s'.workers == s.workers[w := phase]
    ensures InFlight(s', key) == if phase.Under(key) then InFlight(s, key) + {w} else InFlight(s, key) - {w}
    ensures Calling(s', key) ==
            if phase.Under(key) && phase.Called? then Calling(s, key) + {w} else Calling(s, key) - {w}
    ensures w in InFlight(s, key) <==> s.Of(w).Under(key)
    ensures w in Calling(s, key) <==> s.Of(w).Under(key) && s.Of(w).Called?
  {
  }

  lemma CountsMove(s: World, s': World, w: nat, phase: Phase, key: Key)
    requires s'.workers == s.workers[w := phase]
    ensures |InFlight(s', key)| + One(s.Of(w).Under(key)) == |InFlight(s, key)| + One(phase.Under(key))
    ensures |Calling(s', key)| + One(s.Of(w).Under(key) && s.Of(w).Called?) ==
            |Calling(s, key)| + One(phase.Under(key) && phase.Called?)
    ensures InFlight(s, key) == {} ==> |InFlight(s, key)| == 0
  {
    WorkerMoves(s, s', w, phase, key);
    hide InFlight, Calling;
    Resized(InFlight(s, key), w);
    Resized(Calling(s, key), w);
  }

  lemma Resized(a: set<nat>, w: nat)
    ensures |a + {w}| == |a| + One(w !in a)
    ensures |a - {w}| + One(w in a) == |a|
  {
    if w in a {
      assert a + {w} == a;
      assert (a - {w}) + {w} == a;
    } else {
      assert a - {w} == a;
    }
  }

  lemma CallersAreInside(s: World, key: Key)
    ensures |Calling(s, key)| <= |InFlight(s, key)|
  {
    Within(Calling(s, key), InFlight(s, key));
  }

  lemma Within(a: set<nat>, b: set<nat>)
    requires a <= b
    ensures |a| <= |b|
  {
    assert a + (b - a) == b;
  }

  lemma StepAccounts(s: World, t: Tally, step: Step, key: Key)
    requires Accounted(s, t, key) && Enabled(s, step)
    ensures Accounted(Apply(s, step), Counted(t, s, step, key), key)
  {
    hide Calls, InFlight, Calling;
    var s', w := Apply(s, step), step.w;
    if s' == s {
      assert !Overlaps(s, step, key) && !Strikes(s, step, key) && !Aborts(s, step, key);
    } else {
      CountsMove(s, s', w, s'.Of(w), key);
      if step.Call? {
        CallsOfNext(s.calls, Made(s.Of(w).key, step.told, step.took, s.Of(w).evidence), key);
      }
    }
  }

  lemma {:induction false} RunAccounts(steps: seq<Step>, s: World, key: Key)
    requires IsRun(steps, s)
    ensures Accounted(s, Tallied(steps, key), key)
  {
    hide Accounted, Apply, Enabled, Counted;
    if steps == [] {
      StartAccounts(key);
    } else {
      var n := |steps| - 1;
      RunAccounts(steps[..n], After(steps[..n]).value, key);
      StepAccounts(After(steps[..n]).value, Tallied(steps[..n], key), steps[n], key);
    }
  }

  lemma StartAccounts(key: Key)
    ensures Accounted(START, Tally(0, 0, 0), key)
  {
    assert InFlight(START, key) == {} && Calling(START, key) == {};
  }

  /** What the row and its unique key give against a provider of which nothing is assumed: it is called under one key
      at most once, and once more for each worker that was lost after its call and each that began beside another. */
  lemma CallsAreBounded(steps: seq<Step>, s: World, key: Key)
    requires IsRun(steps, s)
    ensures Takes(s.calls, key) <= Calls(s.calls, key)
    ensures Calls(s.calls, key) <= 1 + Tallied(steps, key).crashes + Tallied(steps, key).overlaps
  {
    RunAccounts(steps, s, key);
    TakesAreCalls(s.calls, key);
    CallersAreInside(s, key);
  }

  /** How many may still call under a key. */
  function Waiting(s: World, key: Key): int {
    |InFlight(s, key)| - |Calling(s, key)|
  }

  lemma StepWithRow(s: World, step: Step, key: Key)
    requires Enabled(s, step) && key in s.rows
    ensures key in Apply(s, step).rows && Apply(s, step).rows[key] == s.rows[key]
    ensures Calls(Apply(s, step).calls, key) + Waiting(Apply(s, step), key) <= Calls(s.calls, key) + Waiting(s, key)
  {
    hide Calls, InFlight, Calling;
    var s', w := Apply(s, step), step.w;
    if s' != s {
      CountsMove(s, s', w, s'.Of(w), key);
      if step.Call? {
        CallsOfNext(s.calls, Made(s.Of(w).key, step.told, step.took, s.Of(w).evidence), key);
      }
    }
  }

  /** Once a row is committed it stays as it is, and only those already inside can still call under its key. */
  lemma {:induction false} RowStopsCalls(steps: seq<Step>, s: World, more: seq<Step>, t: World, key: Key)
    requires IsRun(steps, s) && IsRun(steps + more, t) && key in s.rows
    ensures key in t.rows && t.rows[key] == s.rows[key]
    ensures Calls(t.calls, key) + Waiting(t, key) <= Calls(s.calls, key) + Waiting(s, key)
    ensures Waiting(t, key) >= 0
  {
    hide Apply, Enabled, Calls, InFlight, Calling;
    CallersAreInside(t, key);
    if more == [] {
      assert steps + more == steps;
    } else {
      var n := |more| - 1;
      assert (steps + more)[..|steps + more| - 1] == steps + more[..n];
      var before := After(steps + more[..n]).value;
      RowStopsCalls(steps, s, more[..n], before, key);
      StepWithRow(before, more[n], key);
    }
  }

  // ---- whole operations -------------------------------------------------------------------------

  function Proof(key: Key, evidence: Evidence): Option<Evidence> {
    if key.operation == Retry then Some(evidence) else None
  }

  /** A world in which a worker has called under a key it found without a row. */
  function Standing(s: World, w: nat, key: Key, made: Made, delivered: bool): World {
    s.(calls := s.calls + [made]).Put(w, Called(key, if delivered then Some(made.told) else None))
  }

  lemma Grow(steps: seq<Step>, s: World, step: Step, key: Key) returns (steps': seq<Step>, s': World)
    requires IsRun(steps, s) && Enabled(s, step)
    ensures IsRun(steps', s') && s' == Apply(s, step)
    ensures Tallied(steps', key) == Counted(Tallied(steps, key), s, step, key)
  {
    hide Counted, Apply, Enabled;
    steps', s' := steps + [step], Apply(s, step);
    assert steps'[..|steps'| - 1] == steps;
  }

  /** A worker gets as far as its intent. */
  lemma Intent(steps: seq<Step>, s: World, w: nat, key: Key, evidence: Evidence)
    returns (steps': seq<Step>, s': World)
    requires IsRun(steps, s) && s.Of(w).Idle? && key !in s.rows && Permitted(key)
    requires key.operation == Retry ==> Clears(evidence)
    ensures IsRun(steps', s') && s' == s.Put(w, Intending(key, Proof(key, evidence)))
    ensures var t := Tallied(steps, key);
            Tallied(steps', key) == t.(overlaps := t.overlaps + One(InFlight(s, key) != {}))
  {
    hide InFlight, Tallied, IsRun;
    steps', s' := Grow(steps, s, Begin(w, key), key);
    if key.operation == Retry {
      assert s' == s.Put(w, Looked(key));
      steps', s' := Grow(steps', s', Step.Reconcile(w, evidence), key);
      assert s'.workers == s.workers[w := Intending(key, Some(evidence))];
    }
  }

  /** A worker gets as far as the call. */
  lemma Opening(
    steps: seq<Step>, s: World, w: nat, key: Key, evidence: Evidence, told: PaymentState, took: bool, delivered: bool)
    returns (steps': seq<Step>, s': World)
    requires IsRun(steps, s) && s.Of(w).Idle? && key !in s.rows && Permitted(key)
    requires key.operation == Retry ==> Clears(evidence)
    ensures IsRun(steps', s')
    ensures s' == Standing(s, w, key, Made(key, told, took, Proof(key, evidence)), delivered)
    ensures var t := Tallied(steps, key);
            Tallied(steps', key) == t.(overlaps := t.overlaps + One(InFlight(s, key) != {}))
  {
    hide InFlight, Tallied, IsRun;
    steps', s' := Intent(steps, s, w, key, evidence);
    steps', s' := Grow(steps', s', Call(w, told, took, delivered), key);
    assert s'.workers == s.workers[w := Called(key, if delivered then Some(told) else None)];
  }

  /** A worker carries an operation out and commits. */
  lemma WholeRun(
    steps: seq<Step>, s: World, w: nat, key: Key, evidence: Evidence, told: PaymentState, took: bool, delivered: bool)
    returns (steps': seq<Step>, s': World)
    requires IsRun(steps, s) && s.Of(w).Idle? && key !in s.rows && Permitted(key)
    requires key.operation == Retry ==> Clears(evidence)
    ensures IsRun(steps', s')
    ensures var reply := if delivered then Some(told) else None;
            && s'.rows == s.rows[key := RowFor(key, reply)] && s'.ledger == s.ledger + Entry(key, reply)
            && s'.calls == s.calls + [Made(key, told, took, Proof(key, evidence))]
            && s'.workers == s.workers[w := Idle]
  {
    steps', s' := Opening(steps, s, w, key, evidence, told, took, delivered);
    steps', s' := Grow(steps', s', Commit(w), key);
    assert s'.workers == s.workers[w := Idle];
  }

  /** A worker calls and is lost. */
  lemma LostRun(steps: seq<Step>, s: World, w: nat, key: Key, evidence: Evidence, told: PaymentState, took: bool)
    returns (steps': seq<Step>, s': World)
    requires IsRun(steps, s) && s.Of(w).Idle? && key !in s.rows && key.ordinal >= 1
    requires key.operation == Retry && Clears(evidence)
    ensures IsRun(steps', s') && s'.rows == s.rows && s'.ledger == s.ledger
    ensures s'.calls == s.calls + [Made(key, told, took, Some(evidence))] && s'.workers == s.workers[w := Idle]
    ensures var t := Tallied(steps, key);
            Tallied(steps', key) == Tally(t.overlaps + One(InFlight(s, key) != {}), t.crashes + 1, t.aborts)
  {
    hide InFlight, Tallied, IsRun;
    steps', s' := Opening(steps, s, w, key, evidence, told, took, true);
    steps', s' := Grow(steps', s', Crash(w), key);
    assert s'.workers == s.workers[w := Idle];
  }

  /** No fewer calls can be promised: every number of losses and of overlaps is paid in full by some run. */
  lemma {:induction false} BoundIsReached(key: Key, crashes: nat, overlaps: nat) returns (steps: seq<Step>, s: World)
    requires key.operation == Retry && key.ordinal >= 1
    ensures IsRun(steps, s) && Tallied(steps, key) == Tally(overlaps, crashes, 0)
    ensures Calls(s.calls, key) == 1 + crashes + overlaps
    ensures s.rows == map[] && InFlight(s, key) != {} && forall w :: w in s.workers ==> w <= overlaps
  {
    hide Tallied, IsRun, Calls, InFlight;
    if overlaps > 0 {
      steps, s := BoundIsReached(key, crashes, overlaps - 1);
    } else {
      steps, s := LossesRepeat(key, crashes);
    }
    steps, s := OneMoreCalls(steps, s, overlaps, key);
  }

  lemma OneMoreCalls(steps: seq<Step>, s: World, w: nat, key: Key) returns (steps': seq<Step>, s': World)
    requires key.operation == Retry && key.ordinal >= 1
    requires IsRun(steps, s) && s.rows == map[] && s.Of(w).Idle? && forall v :: v in s.workers ==> v <= w
    ensures IsRun(steps', s') && s'.rows == map[] && InFlight(s', key) != {}
    ensures forall v :: v in s'.workers ==> v <= w
    ensures Calls(s'.calls, key) == Calls(s.calls, key) + 1
    ensures var t := Tallied(steps, key);
            Tallied(steps', key) == t.(overlaps := t.overlaps + One(InFlight(s, key) != {}))
  {
    hide Tallied, IsRun, Calls, InFlight;
    steps', s' := Opening(steps, s, w, key, Reported(Failed), Unknown, false, false);
    CallsOfNext(s.calls, Made(key, Unknown, false, Some(Reported(Failed))), key);
    WorkerMoves(s, s', w, s'.Of(w), key);
    assert w in InFlight(s', key);
  }

  lemma {:induction false} LossesRepeat(key: Key, crashes: nat) returns (steps: seq<Step>, s: World)
    requires key.operation == Retry && key.ordinal >= 1
    ensures IsRun(steps, s) && Tallied(steps, key) == Tally(0, crashes, 0)
    ensures Calls(s.calls, key) == crashes
    ensures s.rows == map[] && InFlight(s, key) == {} && s.Of(0).Idle? && forall w :: w in s.workers ==> w == 0
  {
    steps, s := [], START;
    if crashes > 0 {
      hide Tallied, IsRun, Calls, InFlight;
      steps, s := LossesRepeat(key, crashes - 1);
      var before := s;
      CallsOfNext(s.calls, Made(key, Unknown, false, Some(Reported(Failed))), key);
      steps, s := LostRun(steps, s, 0, key, Reported(Failed), Unknown, false);
      WorkerMoves(before, s, 0, Idle, key);
      assert {} - {0} == {};
    }
  }

  // ---- crashes -------------------------------------------------------------------------------

  /** The provider acted, no row says so, and nobody is about to write one. */
  ghost predicate Orphan(s: World, key: Key) {
    Calls(s.calls, key) > 0 && key !in s.rows && Calling(s, key) == {}
  }

  /** Recording the intent first does not help, because the record is in the transaction the crash undoes: there is
      a run after which money has moved and no row exists. */
  lemma CrashLosesTheIntent(key: Key) returns (steps: seq<Step>, s: World)
    requires key.operation == Retry && key.ordinal >= 1
    ensures IsRun(steps, s) && Takes(s.calls, key) == 1 && Orphan(s, key)
  {
    steps, s := LostRun([], START, 0, key, Reported(Failed), Captured, true);
    CallsOfNext([], Made(key, Captured, true, Some(Reported(Failed))), key);
    assert Calling(s, key) == {};
  }

  /** A step orphans a key exactly when it is the crash of the only worker that has called under it, the call got
      through, and no row exists. */
  lemma OrphanedIff(s: World, step: Step, key: Key)
    requires Enabled(s, step)
    ensures !Orphan(s, key) && Orphan(Apply(s, step), key) <==>
            && step.Crash? && Calling(s, key) == {step.w}
            && Calls(s.calls, key) > 0 && key !in s.rows
  {
    hide Calls;
    var s', w := Apply(s, step), step.w;
    if s' != s {
      WorkerMoves(s, s', w, s'.Of(w), key);
    }
    if step.Call? {
      CallsOfNext(s.calls, Made(s.Of(w).key, step.told, step.took, s.Of(w).evidence), key);
    }
    if step.Crash? && Calling(s, key) == {w} {
      assert w in Calling(s, key);
    }
  }

  /** Where a redelivery leads that nobody interrupts. */
  function Redelivered(s: World, w: nat, key: Key, evidence: Evidence, told: PaymentState, took: bool,
                       delivered: bool): World
    requires Enabled(s, Begin(w, key))
  {
    var begun := Apply(s, Begin(w, key));
    var read := if begun.Of(w).Looked? then Apply(begun, Step.Reconcile(w, evidence)) else begun;
    var called := if read.Of(w).Intending? then Apply(read, Call(w, told, took, delivered)) else read;
    if called.Of(w).Called? then Apply(called, Commit(w)) else called
  }

  /** A redelivery heals an orphan exactly when the original payment still reads as having taken nothing, and leaves
      it resolved exactly when the answer also arrives. */
  lemma RedeliveryHealsIff(
    s: World, w: nat, key: Key, evidence: Evidence, told: PaymentState, took: bool, delivered: bool)
    requires Orphan(s, key) && Enabled(s, Begin(w, key))
    ensures var t := Redelivered(s, w, key, evidence, told, took, delivered);
            var heals := key.operation == PaymentLink || Clears(evidence);
            && (key in t.rows <==> heals)
            && (heals ==> (t.rows[key].settled <==> delivered))
            && t.calls == s.calls + (if heals then [Made(key, told, took, Proof(key, evidence))] else [])
            && (!heals ==>
                  t.ledger == s.ledger + [Blocked(key, if evidence in {Reported(Captured), Reported(Authorized)}
                                                       then AlreadyPaid else Unresolved)])
  {
  }

  // ---- answers ----------------------------------------------------------------------------------

  /** What the caller is told when the call has been made. */
  function Answer(key: Key, reply: Option<PaymentState>): Outcome {
    if reply.None? then Indeterminate
    else if key.operation == PaymentLink then LinkCreated
    else if reply.value.MoneyMoved() then Recovered
    else if reply.value == Unknown then Indeterminate
    else NotRecovered
  }

  /** What a redelivery is told from the row. */
  function Replay(key: Key, row: Row): Outcome {
    if !row.settled then Indeterminate
    else if key.operation == PaymentLink then LinkCreated
    else if row.state.MoneyMoved() then Recovered
    else NotRecovered
  }

  /** A redelivery repeats the first answer unless the provider answered a retry that it did not know: the row is
      settled all the same, and the redelivery reports a failure. */
  lemma ReplayRepeatsIff(key: Key, reply: Option<PaymentState>)
    ensures Replay(key, RowFor(key, reply)) == Answer(key, reply) <==>
            key.operation == PaymentLink || reply != Some(Unknown)
    ensures key.operation != PaymentLink ==> Replay(key, RowFor(key, Some(Unknown))) == NotRecovered
    ensures Answer(key, reply) == Recovered <==>
            key.operation != PaymentLink && reply in {Some(Captured), Some(Authorized)}
    ensures Answer(key, reply) == LinkCreated <==> key.operation == PaymentLink && reply.Some?
    ensures Answer(key, reply) == Indeterminate <==>
            reply.None? || (key.operation != PaymentLink && reply == Some(Unknown))
  {
  }
}
