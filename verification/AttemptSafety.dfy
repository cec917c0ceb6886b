/** How often a payment attempt is charged. */
module AttemptSafety {
  // Its retries go out under several ordinals, to a provider that keeps its promises.

  import opened Common
  import opened IdempotencyKeys
  import opened Effector

  // ---- what the provider promises ----------------------------------------------------------------

  /** The first call under a key. */
  function First(calls: seq<Made>, key: Key): Option<Made> {
    if calls == [] then None
    else
      var before, last := First(calls[..|calls| - 1], key), calls[|calls| - 1];
      if before.Some? then before else if last.key == key then Some(last) else None
  }

  /** A provider may say that it does not know, or that the customer is still at it; it may not misreport what it
      did. Creating a link takes nothing. */
  predicate Honest(made: Made) {
    if made.key.operation == PaymentLink then made.told == Pending && !made.took
    else (made.told.MoneyMoved() ==> made.took) && (made.told.Negative() ==> !made.took)
  }

  /** The same key returns the first answer and never moves money again. */
  predicate Kept(calls: seq<Made>, next: Made) {
    var first := First(calls, next.key);
    if first.None? then Honest(next) else next.told == first.value.told && !next.took
  }

  predicate Promised(calls: seq<Made>) {
    calls == [] || (Promised(calls[..|calls| - 1]) && Kept(calls[..|calls| - 1], calls[|calls| - 1]))
  }

  lemma PromisedNext(calls: seq<Made>, next: Made)
    ensures Promised(calls + [next]) <==> Promised(calls) && Kept(calls, next)
    ensures First(calls + [next], next.key) ==
            if First(calls, next.key).Some? then First(calls, next.key) else Some(next)
    ensures forall key :: key != next.key ==> First(calls + [next], key) == First(calls, key)
  {
    assert (calls + [next])[..|calls|] == calls;
  }

  /** What the calls under one key come to: they all tell what the first told, and at most the first takes money. */
  lemma {:induction false} KeyIsPaidOnce(calls: seq<Made>, key: Key)
    requires Promised(calls)
    ensures Takes(calls, key) == if First(calls, key).Some? && First(calls, key).value.took then 1 else 0
    ensures Calls(calls, key) == 0 <==> First(calls, key).None?
    ensures First(calls, key).Some? ==> First(calls, key).value.key == key && Honest(First(calls, key).value)
    ensures forall i :: 0 <= i < |calls| && calls[i].key == key ==>
              && First(calls, key).Some? && calls[i].told == First(calls, key).value.told
              && (calls[i].took ==> First(calls, key).value.took)
  {
    if calls != [] {
      var n := |calls| - 1;
      KeyIsPaidOnce(calls[..n], key);
      assert calls == calls[..n] + [calls[n]];
      forall i | 0 <= i < |calls| && calls[i].key == key
        ensures && First(calls, key).Some? && calls[i].told == First(calls, key).value.told
                && (calls[i].took ==> First(calls, key).value.took)
      {
        if i < n {
          assert calls[..n][i] == calls[i];
        }
      }
    }
  }

  /** How often an attempt was charged. */
  function Charged(calls: seq<Made>, attempt: string): nat {
    if calls == [] then 0
    else
      var last := calls[|calls| - 1];
      Charged(calls[..|calls| - 1], attempt) + if last.key.attempt == attempt && last.took then 1 else 0
  }

  lemma ChargedNext(calls: seq<Made>, next: Made, attempt: string)
    ensures Charged(calls + [next], attempt) ==
            Charged(calls, attempt) + if next.key.attempt == attempt && next.took then 1 else 0
  {
    assert (calls + [next])[..|calls|] == calls;
  }

  lemma {:induction false} UnchargedIff(calls: seq<Made>, attempt: string)
    ensures Charged(calls, attempt) == 0 <==>
            forall i :: 0 <= i < |calls| && calls[i].key.attempt == attempt ==> !calls[i].took
  {
    if calls != [] {
      var n := |calls| - 1;
      UnchargedIff(calls[..n], attempt);
      if forall i :: 0 <= i < n && calls[..n][i].key.attempt == attempt ==> !calls[..n][i].took {
        forall i | 0 <= i < n && calls[i].key.attempt == attempt ensures !calls[i].took {
          assert calls[..n][i] == calls[i];
        }
      } else {
        var i :| 0 <= i < n && calls[..n][i].key.attempt == attempt && calls[..n][i].took;
        assert calls[i].took;
      }
    }
  }

  // ---- runs --------------------------------------------------------------------------------------

  /** Rows stay, and calls are only added. */
  lemma StepExtends(s: World, step: Step)
    requires Enabled(s, step)
    ensures forall key :: key in s.rows ==> key in Apply(s, step).rows && Apply(s, step).rows[key] == s.rows[key]
    ensures if step.Call?
            then Apply(s, step).calls == s.calls + [Made(s.Of(step.w).key, step.told, step.took, s.Of(step.w).evidence)]
            else Apply(s, step).calls == s.calls
  {
  }

  lemma Last(steps: seq<Step>, s: World) returns (before: World)
    requires IsRun(steps, s) && steps != []
    ensures IsRun(steps[..|steps| - 1], before)
    ensures Enabled(before, steps[|steps| - 1]) && s == Apply(before, steps[|steps| - 1])
  {
    before := After(steps[..|steps| - 1]).value;
  }

  /** A row that reports a state was told it by a call under its key; if it reports that no money moved, none did. */
  lemma RowTellsTruth(steps: seq<Step>, s: World, key: Key)
    requires IsRun(steps, s) && Promised(s.calls)
    requires key in s.rows && s.rows[key].settled && key.operation != PaymentLink
    ensures First(s.calls, key).Some? && First(s.calls, key).value.told == s.rows[key].state
    ensures s.rows[key].state in {Captured, Authorized} ==> Takes(s.calls, key) == 1
    ensures s.rows[key].state in {Failed, NotFound, Refunded} ==> Takes(s.calls, key) == 0
    ensures s.rows[key].state.Negative() ==>
              forall i :: 0 <= i < |s.calls| && s.calls[i].key == key ==> !s.calls[i].took
  {
    RunKeeps(steps, s);
    assert KeyInv(s, key);
    KeyIsPaidOnce(s.calls, key);
  }

  lemma LinksTakeNothing(calls: seq<Made>, i: nat)
    requires Promised(calls) && i < |calls| && calls[i].key.operation == PaymentLink
    ensures !calls[i].took
  {
    KeyIsPaidOnce(calls, calls[i].key);
  }

  /** With a provider that keeps its promises, a redelivery that nobody interrupts takes no more money for an orphan,
      and the row it leaves, if the answer arrives, is the one the lost worker would have left. */
  lemma RedeliveryTakesNothing(
    s: World, w: nat, key: Key, evidence: Evidence, told: PaymentState, took: bool, delivered: bool)
    requires Orphan(s, key) && Enabled(s, Begin(w, key))
    requires Promised(s.calls) && Promised(Redelivered(s, w, key, evidence, told, took, delivered).calls)
    ensures var t := Redelivered(s, w, key, evidence, told, took, delivered);
            && Charged(t.calls, key.attempt) == Charged(s.calls, key.attempt)
            && First(s.calls, key).Some?
            && (key in t.rows && t.rows[key].settled ==>
                  t.rows[key] == RowFor(key, Some(First(s.calls, key).value.told)))
  {
    hide Redelivered, First, Charged;
    var made := Made(key, told, took, Proof(key, evidence));
    var t := Redelivered(s, w, key, evidence, told, took, delivered);
    RedeliveryHealsIff(s, w, key, evidence, told, took, delivered);
    RedeliveredRow(s, w, key, evidence, told, took, delivered);
    KeyIsPaidOnce(s.calls, key);
    ChargedNext(s.calls, made, key.attempt);
    PromisedNext(s.calls, made);
    if key.operation == PaymentLink || Clears(evidence) {
      assert t.calls == s.calls + [made];
    } else {
      assert s.calls + [] == s.calls;
    }
  }

  lemma RedeliveredRow(
    s: World, w: nat, key: Key, evidence: Evidence, told: PaymentState, took: bool, delivered: bool)
    requires Enabled(s, Begin(w, key)) && key !in s.rows
    ensures var t := Redelivered(s, w, key, evidence, told, took, delivered);
            key in t.rows && t.rows[key].settled ==> t.rows[key] == RowFor(key, Some(told))
  {
  }

  // ---- several ordinals ------------------------------------------------------------------------------

  /** Reconciliation reads the original payment only, so a second ordinal charges again what the first has charged
      and not learned of. */
  lemma TwoOrdinalsPayTwice(attempt: string) returns (steps: seq<Step>, s: World)
    ensures IsRun(steps, s) && Promised(s.calls) && Charged(s.calls, attempt) == 2
    ensures forall ordinal | 1 <= ordinal <= 2 ::
              Key(attempt, Retry, ordinal) in s.rows && s.rows[Key(attempt, Retry, ordinal)].settled
  {
    hide First, Charged, IsRun;
    steps, s := FirstOrdinal(attempt);
    var two := Key(attempt, Retry, 2);
    var calls, paid := s.calls, Made(two, Captured, true, Some(Reported(Failed)));
    steps, s := WholeRun(steps, s, 0, two, Reported(Failed), Captured, true, true);
    PromisedNext(calls, paid);
    ChargedNext(calls, paid, attempt);
    assert s.calls == calls + [paid];
  }

  lemma FirstOrdinal(attempt: string) returns (steps: seq<Step>, s: World)
    ensures IsRun(steps, s) && Promised(s.calls) && Charged(s.calls, attempt) == 1
    ensures s.rows == map[Key(attempt, Retry, 1) := Row(true, Unknown)] && s.Of(0).Idle?
    ensures First(s.calls, Key(attempt, Retry, 2)).None?
  {
    var one := Key(attempt, Retry, 1);
    var lost := Made(one, Unknown, true, Some(Reported(Failed)));
    hide IsRun, First, Promised, Charged, Tallied;
    steps, s := NothingYet();
    steps, s := WholeRun(steps, s, 0, one, Reported(Failed), Unknown, true, true);
    PromisedNext([], lost);
    ChargedNext([], lost, attempt);
    assert s.calls == [] + [lost];
    assert s.rows == map[one := Row(true, Unknown)];
  }

  /** The n-th call is the first under its key, of an attempt already charged. */
  ghost predicate Fork(calls: seq<Made>, attempt: string, n: nat) {
    && n < |calls| && calls[n].key.attempt == attempt && calls[n].key.operation != PaymentLink
    && First(calls[..n], calls[n].key).None? && Charged(calls[..n], attempt) > 0
  }

  /** A history that ends early in another one, its last call perhaps answered otherwise. */
  ghost predicate Variant(calls: seq<Made>, of: seq<Made>) {
    && 0 < |calls| <= |of| && Promised(calls)
    && calls[..|calls| - 1] == of[..|calls| - 1] && calls[|calls| - 1].key == of[|calls| - 1].key
  }

  lemma {:induction false} PrefixIsPromised(calls: seq<Made>, n: nat)
    requires Promised(calls) && n <= |calls|
    ensures Promised(calls[..n])
  {
    if n < |calls| {
      PrefixIsPromised(calls[..|calls| - 1], n);
      assert calls[..|calls| - 1][..n] == calls[..n];
    } else {
      assert calls[..n] == calls;
    }
  }

  /** Without a fork an attempt is charged at most once. */
  lemma {:induction false} UnforkedPaysOnce(calls: seq<Made>, attempt: string)
    requires Promised(calls) && forall n :: !Fork(calls, attempt, n)
    ensures Charged(calls, attempt) <= 1
  {
    if calls != [] {
      var n := |calls| - 1;
      var before := calls[..n];
      forall k: nat ensures !Fork(before, attempt, k) {
        if k < n {
          assert before[..k] == calls[..k];
          assert !Fork(calls, attempt, k);
        }
      }
      UnforkedPaysOnce(before, attempt);
      assert !Fork(calls, attempt, n);
      assert calls[n].key.operation == PaymentLink || First(before, calls[n].key).Some? ==> !calls[n].took by {
        if calls[n].key.operation == PaymentLink {
          LinksTakeNothing(calls, n);
        }
      }
    }
  }

  /** Every call of a run was made by a worker that could have been answered otherwise. */
  lemma {:induction false} CallHappened(steps: seq<Step>, s: World, n: nat, told: PaymentState, took: bool)
    returns (steps': seq<Step>, s': World)
    requires IsRun(steps, s) && n < |s.calls|
    ensures IsRun(steps', s')
    ensures s'.calls == s.calls[..n] + [Made(s.calls[n].key, told, took, s.calls[n].evidence)]
  {
    hide Apply, Enabled, Tallied;
    var before := Last(steps, s);
    var step := steps[|steps| - 1];
    StepExtends(before, step);
    if n < |before.calls| {
      steps', s' := CallHappened(steps[..|steps| - 1], before, n, told, took);
      assert before.calls[..n] == s.calls[..n];
    } else {
      steps', s' := AnswerOtherwise(steps[..|steps| - 1], before, step, told, took);
      assert s.calls[..n] == before.calls;
    }
  }

  lemma AnswerOtherwise(steps: seq<Step>, s: World, step: Step, told: PaymentState, took: bool)
    returns (steps': seq<Step>, s': World)
    requires IsRun(steps, s) && Enabled(s, step) && step.Call?
    ensures IsRun(steps', s')
    ensures s'.calls == s.calls + [Made(s.Of(step.w).key, told, took, s.Of(step.w).evidence)]
  {
    steps', s' := Grow(steps, s, Call(step.w, told, took, true), s.Of(step.w).key);
  }

  /** When an attempt is charged at most once whatever the provider answers: exactly when no new ordinal of it is
      called after one that took money. */
  lemma PaidOnceIff(steps: seq<Step>, s: World, attempt: string)
    requires IsRun(steps, s) && Promised(s.calls)
    ensures (forall n :: !Fork(s.calls, attempt, n)) <==>
            forall steps', s' :: IsRun(steps', s') && Variant(s'.calls, s.calls) ==> Charged(s'.calls, attempt) <= 1
  {
    hide IsRun;
    if n: nat :| Fork(s.calls, attempt, n) {
      var made := Made(s.calls[n].key, Captured, true, s.calls[n].evidence);
      var steps', s' := CallHappened(steps, s, n, Captured, true);
      PrefixIsPromised(s.calls, n);
      PromisedNext(s.calls[..n], made);
      ChargedNext(s.calls[..n], made, attempt);
      assert s'.calls[..|s'.calls| - 1] == s.calls[..n];
      assert Variant(s'.calls, s.calls) && Charged(s'.calls, attempt) >= 2;
    } else {
      forall steps', s' | IsRun(steps', s') && Variant(s'.calls, s.calls) ensures Charged(s'.calls, attempt) <= 1 {
        VariantIsUnforked(s'.calls, s.calls, attempt);
        UnforkedPaysOnce(s'.calls, attempt);
      }
    }
  }

  /** Whether a call is a fork does not depend on its answer. */
  lemma VariantIsUnforked(calls: seq<Made>, of: seq<Made>, attempt: string)
    requires Variant(calls, of) && forall n :: !Fork(of, attempt, n)
    ensures forall n :: !Fork(calls, attempt, n)
  {
    forall n: nat ensures !Fork(calls, attempt, n) {
      if n < |calls| {
        var m := |calls| - 1;
        assert calls[..n] == calls[..m][..n] == of[..m][..n] == of[..n];
        assert calls[n].key == of[n].key by {
          if n < m {
            assert calls[n] == calls[..m][n] == of[..m][n] == of[n];
          }
        }
        assert !Fork(of, attempt, n);
      }
    }
  }

  // ---- a guard a caller can check ------------------------------------------------------------------------

  /** A row that settles the matter: the call came back and said how it ended, without the money. */
  predicate Settles(row: Option<Row>) {
    row.Some? && row.value.settled && row.value.state.Negative()
  }

  function RowOf(rows: map<Key, Row>, attempt: string, ordinal: int): Option<Row> {
    var key := Key(attempt, Retry, ordinal);
    if key in rows then Some(rows[key]) else None
  }

  /** Every earlier ordinal has a row that settles it. */
  predicate Guard(rows: map<Key, Row>, attempt: string, ordinal: int) {
    forall m :: 1 <= m < ordinal ==> Settles(RowOf(rows, attempt, m))
  }

  /** A run in which nobody starts a new ordinal of the attempt unless the guard lets it. */
  ghost predicate Guarded(steps: seq<Step>, attempt: string) {
    forall i :: 0 <= i < |steps| ==> Respects(After(steps[..i]), steps[i], attempt)
  }

  predicate Respects(before: Option<World>, step: Step, attempt: string) {
    (before.Some? && step.Begin? && Ours(step.key, attempt) && step.key !in before.value.rows) ==>
      Guard(before.value.rows, attempt, step.key.ordinal)
  }

  predicate Ours(key: Key, attempt: string) {
    key.attempt == attempt && key.operation == Retry
  }

  /** Whoever is inside under an ordinal, or has called under it, found all earlier ones settled. */
  ghost predicate GuardInv(s: World, attempt: string) {
    && (forall w: nat :: !s.Of(w).Idle? && Ours(s.Of(w).key, attempt) ==>
          Guard(s.rows, attempt, s.Of(w).key.ordinal))
    && (forall i :: 0 <= i < |s.calls| && Ours(s.calls[i].key, attempt) ==>
          Guard(s.rows, attempt, s.calls[i].key.ordinal))
  }

  lemma GuardStays(s: World, step: Step, attempt: string, ordinal: int)
    requires Enabled(s, step) && Guard(s.rows, attempt, ordinal)
    ensures Guard(Apply(s, step).rows, attempt, ordinal)
  {
    hide Apply;
    StepExtends(s, step);
    forall m | 1 <= m < ordinal ensures Settles(RowOf(Apply(s, step).rows, attempt, m)) {
      assert Settles(RowOf(s.rows, attempt, m));
    }
  }

  lemma WorkersMove(s: World, step: Step, w: nat)
    requires Enabled(s, step) && !Apply(s, step).Of(w).Idle?
    ensures if s.Of(w).Idle? then step == Begin(w, Apply(s, step).Of(w).key) && step.key !in s.rows
            else Apply(s, step).Of(w).key == s.Of(w).key
  {
  }

  lemma GuardInvKept(s: World, step: Step, attempt: string)
    requires GuardInv(s, attempt) && Enabled(s, step) && Respects(Some(s), step, attempt)
    ensures GuardInv(Apply(s, step), attempt)
  {
    hide Apply, Guard;
    var t := Apply(s, step);
    forall w: nat | !t.Of(w).Idle? && Ours(t.Of(w).key, attempt) ensures Guard(t.rows, attempt, t.Of(w).key.ordinal) {
      WorkersMove(s, step, w);
      GuardStays(s, step, attempt, t.Of(w).key.ordinal);
    }
    StepExtends(s, step);
    forall i | 0 <= i < |t.calls| && Ours(t.calls[i].key, attempt)
      ensures Guard(t.rows, attempt, t.calls[i].key.ordinal)
    {
      if i == |s.calls| {
        assert !s.Of(step.w).Idle?;
      }
      GuardStays(s, step, attempt, t.calls[i].key.ordinal);
    }
  }

  lemma {:induction false} RunIsGuarded(steps: seq<Step>, s: World, attempt: string)
    requires IsRun(steps, s) && Guarded(steps, attempt)
    ensures GuardInv(s, attempt)
  {
    hide GuardInv, Apply, Enabled, Respects;
    if steps == [] {
      StartIsGuarded(attempt);
    } else {
      var n := |steps| - 1;
      var before := Last(steps, s);
      forall i | 0 <= i < n ensures Respects(After(steps[..n][..i]), steps[..n][i], attempt) {
        assert steps[..n][..i] == steps[..i];
      }
      RunIsGuarded(steps[..n], before, attempt);
      assert Respects(After(steps[..n]), steps[n], attempt);
      GuardInvKept(before, steps[n], attempt);
    }
  }

  lemma StartIsGuarded(attempt: string)
    ensures GuardInv(START, attempt)
  {
  }

  /** While the guard holds for an ordinal not yet called, nothing has been charged. */
  lemma GuardedIsUncharged(steps: seq<Step>, s: World, attempt: string, ordinal: int)
    requires IsRun(steps, s) && Promised(s.calls) && GuardInv(s, attempt)
    requires ordinal >= 1 && Guard(s.rows, attempt, ordinal) && First(s.calls, Key(attempt, Retry, ordinal)).None?
    ensures Charged(s.calls, attempt) == 0
  {
    hide IsRun, First, GuardInv, Guard;
    forall i | 0 <= i < |s.calls| && s.calls[i].key.attempt == attempt ensures !s.calls[i].took {
      var key := s.calls[i].key;
      CallIsPermitted(steps, s, i);
      if key.operation == PaymentLink {
        LinksTakeNothing(s.calls, i);
      } else if key.ordinal < ordinal {
        SettledTookNothing(steps, s, attempt, ordinal, i);
      } else if key.ordinal > ordinal {
        LaterWasCalledFirst(steps, s, attempt, ordinal, i);
      } else {
        KeyIsPaidOnce(s.calls, key);
      }
    }
    UnchargedIff(s.calls, attempt);
  }

  lemma CallIsPermitted(steps: seq<Step>, s: World, i: nat)
    requires IsRun(steps, s) && i < |s.calls|
    ensures Permitted(s.calls[i].key)
  {
    RunKeeps(steps, s);
    assert CallInv(s, i);
  }

  lemma SettledTookNothing(steps: seq<Step>, s: World, attempt: string, ordinal: int, i: nat)
    requires IsRun(steps, s) && Promised(s.calls) && Guard(s.rows, attempt, ordinal)
    requires i < |s.calls| && Ours(s.calls[i].key, attempt) && 1 <= s.calls[i].key.ordinal < ordinal
    ensures !s.calls[i].took
  {
    assert Settles(RowOf(s.rows, attempt, s.calls[i].key.ordinal));
    RowTellsTruth(steps, s, s.calls[i].key);
  }

  /** A later ordinal was only called once this one had a row, and so a call. */
  lemma LaterWasCalledFirst(steps: seq<Step>, s: World, attempt: string, ordinal: int, i: nat)
    requires IsRun(steps, s) && Promised(s.calls) && GuardInv(s, attempt)
    requires i < |s.calls| && Ours(s.calls[i].key, attempt) && 1 <= ordinal < s.calls[i].key.ordinal
    ensures First(s.calls, Key(attempt, Retry, ordinal)).Some?
  {
    assert Guard(s.rows, attempt, s.calls[i].key.ordinal);
    assert Settles(RowOf(s.rows, attempt, ordinal));
    RowTellsTruth(steps, s, Key(attempt, Retry, ordinal));
  }

  /** A guarded step charges an attempt only if it was not charged before. */
  lemma GuardedStepPaysOnce(steps: seq<Step>, s: World, step: Step, attempt: string)
    requires IsRun(steps, s) && Promised(s.calls) && GuardInv(s, attempt) && Enabled(s, step)
    requires Charged(s.calls, attempt) <= 1 && Promised(Apply(s, step).calls)
    ensures Charged(Apply(s, step).calls, attempt) <= 1
  {
    hide IsRun, Apply, First, Charged, Guard;
    StepExtends(s, step);
    if step.Call? {
      var key := s.Of(step.w).key;
      var made := Made(key, step.told, step.took, s.Of(step.w).evidence);
      PromisedNext(s.calls, made);
      ChargedNext(s.calls, made, attempt);
      WorkerIsPermitted(steps, s, step.w);
      if Ours(key, attempt) && First(s.calls, key).None? {
        GuardedIsUncharged(steps, s, attempt, key.ordinal);
      } else if key.operation == PaymentLink {
        KeyIsPaidOnce(s.calls, key);
      }
    }
  }

  lemma WorkerIsPermitted(steps: seq<Step>, s: World, w: nat)
    requires IsRun(steps, s) && !s.Of(w).Idle?
    ensures Permitted(s.Of(w).key)
  {
    RunKeeps(steps, s);
    assert WorkerInv(s, w);
  }

  /** Under the guard an attempt is charged at most once, over every run and whatever the provider answers. */
  lemma {:induction false} GuardedAttemptsPayOnce(steps: seq<Step>, s: World, attempt: string)
    requires IsRun(steps, s) && Promised(s.calls) && Guarded(steps, attempt)
    ensures Charged(s.calls, attempt) <= 1
  {
    hide GuardInv, Apply, Enabled, Respects;
    if steps != [] {
      var n := |steps| - 1;
      var before := Last(steps, s);
      StepKeepsPromise(before, steps[n]);
      forall i | 0 <= i < n ensures Respects(After(steps[..n][..i]), steps[..n][i], attempt) {
        assert steps[..n][..i] == steps[..i];
      }
      GuardedAttemptsPayOnce(steps[..n], before, attempt);
      RunIsGuarded(steps[..n], before, attempt);
      GuardedStepPaysOnce(steps[..n], before, steps[n], attempt);
    }
  }

  lemma StepKeepsPromise(s: World, step: Step)
    requires Enabled(s, step) && Promised(Apply(s, step).calls)
    ensures Promised(s.calls)
  {
    StepExtends(s, step);
    if step.Call? {
      PromisedNext(s.calls, Made(s.Of(step.w).key, step.told, step.took, s.Of(step.w).evidence));
    }
  }

  // ---- the guard asks for no more than it must -----------------------------------------------------------------

  /** The rows of an attempt's first ordinals, as a caller can read them. */
  predicate Shows(rows: map<Key, Row>, attempt: string, view: seq<Option<Row>>) {
    forall m :: 1 <= m <= |view| ==> RowOf(rows, attempt, m) == view[m - 1]
  }

  predicate NoneAfter(calls: seq<Made>, attempt: string, ordinal: nat) {
    forall i :: 0 <= i < |calls| && Ours(calls[i].key, attempt) ==> calls[i].key.ordinal <= ordinal
  }

  /** Rows as they are written: one that is not settled says nothing. */
  predicate Written(view: seq<Option<Row>>) {
    forall m :: 0 <= m < |view| && view[m].Some? && !view[m].value.settled ==> view[m].value.state == Unknown
  }

  /** What a caller can conclude from the rows: the attempt is uncharged in every run that leads to them exactly when
      each of them settles its ordinal. */
  lemma GuardIsExact(attempt: string, view: seq<Option<Row>>)
    requires Written(view)
    ensures (forall m :: 0 <= m < |view| ==> Settles(view[m])) <==>
            forall steps, s :: (IsRun(steps, s) && Promised(s.calls) && Shows(s.rows, attempt, view)
                                && NoneAfter(s.calls, attempt, |view|)) ==> Charged(s.calls, attempt) == 0
  {
    hide IsRun, Charged;
    if m: nat :| m < |view| && !Settles(view[m]) {
      var steps, s := ShownRun(attempt, view, m);
      assert IsRun(steps, s) && Shows(s.rows, attempt, view) && Charged(s.calls, attempt) != 0;
    } else {
      forall steps, s | IsRun(steps, s) && Promised(s.calls) && Shows(s.rows, attempt, view)
                        && NoneAfter(s.calls, attempt, |view|)
        ensures Charged(s.calls, attempt) == 0
      {
        SettledIsUncharged(steps, s, attempt, view);
      }
    }
  }

  lemma SettledIsUncharged(steps: seq<Step>, s: World, attempt: string, view: seq<Option<Row>>)
    requires IsRun(steps, s) && Promised(s.calls) && Shows(s.rows, attempt, view)
    requires NoneAfter(s.calls, attempt, |view|) && forall m :: 0 <= m < |view| ==> Settles(view[m])
    ensures Charged(s.calls, attempt) == 0
  {
    hide IsRun, Promised;
    assert Guard(s.rows, attempt, |view| + 1);
    forall i | 0 <= i < |s.calls| && s.calls[i].key.attempt == attempt ensures !s.calls[i].took {
      CallIsPermitted(steps, s, i);
      if s.calls[i].key.operation == PaymentLink {
        LinksTakeNothing(s.calls, i);
      } else {
        SettledTookNothing(steps, s, attempt, |view| + 1, i);
      }
    }
    UnchargedIff(s.calls, attempt);
  }

  /** What has to be told, and whether money can be taken, for a row to come out as it is. */
  function ToldFor(row: Option<Row>): PaymentState {
    if row.Some? && row.value.settled then row.value.state else Unknown
  }

  function TakenUnder(row: Option<Row>, wanted: bool): bool {
    ToldFor(row).MoneyMoved() || (wanted && !ToldFor(row).Negative())
  }

  /** A run to a world that shows the given rows, in which an ordinal that is not settled took money. */
  lemma {:induction false} ShownRun(attempt: string, view: seq<Option<Row>>, at: nat)
    returns (steps: seq<Step>, s: World)
    requires Written(view)
    ensures IsRun(steps, s) && Promised(s.calls) && Shows(s.rows, attempt, view)
    ensures NoneAfter(s.calls, attempt, |view|) && s.Of(0).Idle?
    ensures at < |view| && !Settles(view[at]) ==> Charged(s.calls, attempt) > 0
    ensures forall key :: key in s.rows || First(s.calls, key).Some? ==> key.ordinal <= |view|
  {
    hide IsRun, First, Charged, Promised;
    if view == [] {
      steps, s := NothingYet();
    } else {
      var n := |view| - 1;
      var before, prior := ShownRun(attempt, view[..n], at);
      var key := Key(attempt, Retry, n + 1);
      ShowsNext(prior.rows, attempt, view);
      if view[n].None? && n != at {
        steps, s := before, prior;
      } else {
        steps, s := ShownNext(before, prior, key, view[n], n == at);
        var made := Made(key, ToldFor(view[n]), TakenUnder(view[n], n == at), Some(Reported(Failed)));
        PromisedNext(prior.calls, made);
        ChargedNext(prior.calls, made, attempt);
      }
    }
  }

  lemma ShowsNext(rows: map<Key, Row>, attempt: string, view: seq<Option<Row>>)
    requires view != [] && Shows(rows, attempt, view[..|view| - 1]) && Key(attempt, Retry, |view|) !in rows
    ensures view[|view| - 1].None? ==> Shows(rows, attempt, view)
    ensures view[|view| - 1].Some? ==> Shows(rows[Key(attempt, Retry, |view|) := view[|view| - 1].value], attempt, view)
  {
    var n := |view| - 1;
    forall m | 1 <= m <= n ensures RowOf(rows, attempt, m) == view[m - 1] {
      assert view[..n][m - 1] == view[m - 1];
    }
    if view[n].Some? {
      var more := rows[Key(attempt, Retry, n + 1) := view[n].value];
      forall m | 1 <= m <= |view| ensures RowOf(more, attempt, m) == view[m - 1] {
        assert m <= n ==> RowOf(more, attempt, m) == RowOf(rows, attempt, m);
      }
    }
  }

  lemma NothingYet() returns (steps: seq<Step>, s: World)
    ensures IsRun(steps, s) && Promised(s.calls) && s == START
    ensures forall key :: First(s.calls, key).None? && Takes(s.calls, key) == 0
    ensures forall attempt :: Charged(s.calls, attempt) == 0
  {
    steps, s := [], START;
  }

  lemma ShownNext(steps: seq<Step>, s: World, key: Key, row: Option<Row>, wanted: bool)
    returns (steps': seq<Step>, s': World)
    requires IsRun(steps, s) && s.Of(0).Idle? && key !in s.rows && Permitted(key) && key.operation == Retry
    requires row.Some? && !row.value.settled ==> row.value.state == Unknown
    ensures IsRun(steps', s') && s'.Of(0).Idle?
    ensures s'.calls == s.calls + [Made(key, ToldFor(row), TakenUnder(row, wanted), Some(Reported(Failed)))]
    ensures s'.rows == if row.Some? then s.rows[key := row.value] else s.rows
  {
    var told, took := ToldFor(row), TakenUnder(row, wanted);
    if row.None? {
      steps', s' := LostRun(steps, s, 0, key, Reported(Failed), told, took);
    } else {
      steps', s' := WholeRun(steps, s, 0, key, Reported(Failed), told, took, row.value.settled);
    }
  }

  // ---- answers --------------------------------------------------------------------------------------------------

  /** A redelivery can report a failure of a payment that was captured; a report of recovery is always true. */
  lemma ReplayedFailureMayBeCaptured(key: Key) returns (steps: seq<Step>, s: World)
    requires key.operation == Retry && key.ordinal >= 1
    ensures IsRun(steps, s) && Promised(s.calls)
    ensures key in s.rows && Replay(key, s.rows[key]) == NotRecovered && Takes(s.calls, key) == 1
  {
    var made := Made(key, Unknown, true, Some(Reported(Failed)));
    hide IsRun, Promised, Takes;
    steps, s := NothingYet();
    steps, s := WholeRun(steps, s, 0, key, Reported(Failed), Unknown, true, true);
    PromisedNext([], made);
    CallsOfNext([], made, key);
    assert s.calls == [] + [made];
  }

  lemma ReplayedRecoveryIsTrue(steps: seq<Step>, s: World, key: Key)
    requires IsRun(steps, s) && Promised(s.calls) && key in s.rows && Replay(key, s.rows[key]) == Recovered
    ensures Takes(s.calls, key) == 1
  {
    RowTellsTruth(steps, s, key);
  }
}
