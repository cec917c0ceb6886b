/** At-least-once delivery, step by step. */
module IngestProtocol {
  // Any number of workers, racing, crashing and being handed the same message again.

  import opened Common
  import opened IngestTables

  /** Where a worker stands inside one delivery. Everything it has not committed is lost when it fails. */
  datatype Worker =
    | Idle
    | Looking(offset: nat, event: FailedEvent)
    | Unseen(offset: nat, event: FailedEvent)
    | Ready(offset: nat, event: FailedEvent, attempt: nat, insert: Option<AttemptRow>)
    | Writing(offset: nat, event: FailedEvent, attempt: nat, insert: Option<AttemptRow>)
    | LostRace(offset: nat, event: FailedEvent)
    | Acking(offset: nat)

  datatype State = State(log: seq<Payload>, tables: Tables, acked: set<nat>, workers: seq<Worker>)

  datatype Step =
    | Deliver(w: nat, offset: nat)
    | LookForFailure(w: nat)
    | LookForAttempt(w: nat, freshId: nat)
    | SaveFailure(w: nat)
    | ViolationCaught(w: nat)
    | ReportDuplicate(w: nat)
    | CommitWork(w: nat)
    | Acknowledge(w: nat)
    | Fail(w: nat)

  function Goto(s: State, w: nat, worker: Worker): State
    requires w < |s.workers|
  {
    s.(workers := s.workers[w := worker])
  }

  /** One step, or nothing when it is not enabled. Reads see committed rows only. Any offset may be delivered
      at any time, so redelivery and two workers holding one message are ordinary. */
  function Apply(s: State, step: Step): Option<State> {
    if step.w >= |s.workers| then None
    else
      var worker := s.workers[step.w];
      match step
      case Deliver(w, offset) =>
        if !worker.Idle? || offset >= |s.log| then None
        else if s.log[offset].Malformed? || s.log[offset].event.merchant !in s.tables.merchants then
          Some(Goto(s, w, Acking(offset)))
        else Some(Goto(s, w, Looking(offset, s.log[offset].event)))
      case LookForFailure(w) =>
        if !worker.Looking? then None
        else if FindFailure(s.tables.failures, worker.event.merchant, worker.event.eventId).Some? then
          Some(Goto(s, w, Acking(worker.offset)))
        else Some(Goto(s, w, Unseen(worker.offset, worker.event)))
      case LookForAttempt(w, freshId) =>
        if !worker.Unseen? then None
        else
          var found := FindAttempt(s.tables.attempts, worker.event.merchant, worker.event.attemptId);
          if found.Some? then Some(Goto(s, w, Ready(worker.offset, worker.event, found.value.id, None)))
          else Some(Goto(s, w, Ready(worker.offset, worker.event, freshId, Some(ToAttempt(worker.event, freshId)))))
      case SaveFailure(w) =>
        if !worker.Ready? then None
        else Some(Goto(s, w, Writing(worker.offset, worker.event, worker.attempt, worker.insert)))
      case ViolationCaught(w) =>
        if !worker.Ready? || !s.tables.HasFailure(worker.event.merchant, worker.event.eventId) then None
        else Some(Goto(s, w, LostRace(worker.offset, worker.event)))
      case ReportDuplicate(w) =>
        if !worker.LostRace? then None
        else Some(Goto(s, w, Acking(worker.offset)))
      case CommitWork(w) =>
        if !worker.Writing? then None
        else
          (match Commit(s.tables, worker.insert, ToFailure(worker.event, worker.attempt))
           case Some(t) => Some(Goto(s.(tables := t), w, Acking(worker.offset)))
           case None => Some(Goto(s, w, Idle)))
      case Acknowledge(w) =>
        if !worker.Acking? then None
        else Some(Goto(s.(acked := s.acked + {worker.offset}), w, Idle))
      case Fail(w) => Some(Goto(s, w, Idle))
  }

  // ---- the invariant ---------------------------------------------------------

  /** Nothing is lost if this offset is never delivered again. */
  ghost predicate Settled(s: State, offset: nat) {
    && offset < |s.log|
    && match s.log[offset]
       case Malformed => true
       case Valid(e) => e.merchant !in s.tables.merchants || s.tables.HasFailure(e.merchant, e.eventId)
  }

  ghost predicate Carries(s: State, offset: nat, e: FailedEvent) {
    offset < |s.log| && s.log[offset] == Valid(e) && e.merchant in s.tables.merchants
  }

  ghost predicate HasAttemptRow(t: Tables, id: nat, merchant: string, attemptId: string) {
    exists j :: 0 <= j < |t.attempts| && t.attempts[j].id == id && t.attempts[j].merchant == merchant &&
        t.attempts[j].attemptId == attemptId
  }

  ghost predicate WorkerOk(s: State, worker: Worker) {
    match worker
    case Idle => true
    case Looking(o, e) => Carries(s, o, e)
    case Unseen(o, e) => Carries(s, o, e)
    case Ready(o, e, attempt, insert) => Carries(s, o, e) && AttemptOk(s, e, attempt, insert)
    case Writing(o, e, attempt, insert) => Carries(s, o, e) && AttemptOk(s, e, attempt, insert)
    case LostRace(o, e) => Carries(s, o, e) && s.tables.HasFailure(e.merchant, e.eventId)
    case Acking(o) => Settled(s, o)
  }

  /** The attempt the worker will point at is committed, or is the insert it carries itself. */
  ghost predicate AttemptOk(s: State, e: FailedEvent, attempt: nat, insert: Option<AttemptRow>) {
    match insert
    case None => HasAttemptRow(s.tables, attempt, e.merchant, e.attemptId)
    case Some(row) => row == ToAttempt(e, attempt)
  }

  /** The row was written for some message in the log, and points at that message's own attempt. */
  ghost predicate Explained(s: State, row: FailureRow) {
    exists o :: 0 <= o < |s.log| && Explains(s, row, o)
  }

  ghost predicate Explains(s: State, row: FailureRow, o: nat)
    requires o < |s.log|
  {
    && s.log[o].Valid? && s.log[o].event.merchant in s.tables.merchants
    && row == ToFailure(s.log[o].event, row.attempt)
    && HasAttemptRow(s.tables, row.attempt, row.merchant, s.log[o].event.attemptId)
  }

  ghost predicate Referenced(t: Tables, row: AttemptRow) {
    exists i :: 0 <= i < |t.failures| && t.failures[i].attempt == row.id && t.failures[i].merchant == row.merchant
  }

  /** Relative to the tables the run started from. */
  ghost predicate Inv(base: Tables, s: State) {
    && s.tables.Consistent()
    && base.ExtendsTo(s.tables)
    && (forall i :: |base.failures| <= i < |s.tables.failures| ==> Explained(s, s.tables.failures[i]))
    && (forall i :: |base.attempts| <= i < |s.tables.attempts| ==> Referenced(s.tables, s.tables.attempts[i]))
    && (forall o :: o in s.acked ==> Settled(s, o))
    && (forall w :: 0 <= w < |s.workers| ==> WorkerOk(s, s.workers[w]))
  }

  ghost predicate Init(base: Tables, s: State) {
    s.tables == base && base.Consistent() && s.acked == {} && forall w :: 0 <= w < |s.workers| ==> s.workers[w].Idle?
  }

  // ---- every step keeps it ----------------------------------------------------

  /** Committed rows only accumulate, so what was true of them stays true. */
  lemma RowsAccumulate(s: State, t: Tables)
    requires s.tables.ExtendsTo(t)
    ensures forall m, e :: s.tables.HasFailure(m, e) ==> t.HasFailure(m, e)
    ensures forall id, m, a :: HasAttemptRow(s.tables, id, m, a) ==> HasAttemptRow(t, id, m, a)
    ensures forall row :: Referenced(s.tables, row) ==> Referenced(t, row)
    ensures forall o: nat :: Settled(s, o) ==> Settled(s.(tables := t), o)
    ensures forall worker :: WorkerOk(s, worker) ==> WorkerOk(s.(tables := t), worker)
    ensures forall row :: Explained(s, row) ==> Explained(s.(tables := t), row)
  {
    forall m, e | s.tables.HasFailure(m, e) ensures t.HasFailure(m, e) {
      var i :| 0 <= i < |s.tables.failures| && s.tables.failures[i].merchant == m && s.tables.failures[i].eventId == e;
      assert t.failures[i] == s.tables.failures[i];
    }
    forall id, m, a | HasAttemptRow(s.tables, id, m, a) ensures HasAttemptRow(t, id, m, a) {
      var j :| 0 <= j < |s.tables.attempts| && s.tables.attempts[j].id == id
        && s.tables.attempts[j].merchant == m && s.tables.attempts[j].attemptId == a;
      assert t.attempts[j] == s.tables.attempts[j];
    }
    forall row | Referenced(s.tables, row) ensures Referenced(t, row) {
      var i :| 0 <= i < |s.tables.failures| && s.tables.failures[i].attempt == row.id &&
          s.tables.failures[i].merchant == row.merchant;
      assert t.failures[i] == s.tables.failures[i];
    }
    forall row | Explained(s, row) ensures Explained(s.(tables := t), row) {
      var o :| 0 <= o < |s.log| && Explains(s, row, o);
      assert Explains(s.(tables := t), row, o);
    }
  }

  /** Moving one worker, or acknowledging a settled offset, touches no row. */
  lemma MoveKeeps(base: Tables, s: State, w: nat, worker: Worker, acked: set<nat>)
    requires Inv(base, s) && w < |s.workers| && WorkerOk(s, worker)
    requires forall o :: o in acked ==> Settled(s, o)
    ensures Inv(base, Goto(s.(acked := acked), w, worker))
  {
    var s' := Goto(s.(acked := acked), w, worker);
    forall i | |base.failures| <= i < |s.tables.failures| ensures Explained(s', s'.tables.failures[i]) {
      var o :| 0 <= o < |s.log| && Explains(s, s.tables.failures[i], o);
      assert Explains(s', s.tables.failures[i], o);
    }
    forall v | 0 <= v < |s'.workers| ensures WorkerOk(s', s'.workers[v]) {
      assert WorkerOk(s, if v == w then worker else s.workers[v]);
    }
  }

  lemma CommitStepKeeps(base: Tables, s: State, w: nat)
    requires Inv(base, s) && w < |s.workers| && s.workers[w].Writing?
    requires Commit(s.tables, s.workers[w].insert, ToFailure(s.workers[w].event, s.workers[w].attempt)).Some?
    ensures var worker := s.workers[w];
            var t := Commit(s.tables, worker.insert, ToFailure(worker.event, worker.attempt)).value;
            Inv(base, s.(tables := t)) && s.tables.ExtendsTo(t) &&
                t.HasFailure(worker.event.merchant, worker.event.eventId)
  {
    var worker := s.workers[w];
    var e := worker.event;
    var failure := ToFailure(e, worker.attempt);
    var t := Commit(s.tables, worker.insert, failure).value;
    CommitKeeps(s.tables, worker.insert, failure);
    hide Tables.Consistent;
    RowsAccumulate(s, t);
    var s' := s.(tables := t);
    assert HasAttemptRow(t, worker.attempt, e.merchant, e.attemptId) by {
      assert WorkerOk(s, worker);
      if worker.insert.Some? {
        assert t.attempts[|s.tables.attempts|] == worker.insert.value;
      }
    }
    assert t.failures[|s.tables.failures|] == failure;
    assert Explains(s', failure, worker.offset);
    forall i | |base.attempts| <= i < |t.attempts| ensures Referenced(t, t.attempts[i]) {
      if i < |s.tables.attempts| {
        assert Referenced(s.tables, s.tables.attempts[i]);
      }
    }
  }

  lemma InvKept(base: Tables, s: State, step: Step)
    requires Inv(base, s) && Apply(s, step).Some?
    ensures Inv(base, Apply(s, step).value)
    ensures s.tables.ExtendsTo(Apply(s, step).value.tables)
    ensures Apply(s, step).value.log == s.log
  {
    var w := step.w;
    var worker := s.workers[w];
    var s' := Apply(s, step).value;
    assert WorkerOk(s, worker);
    hide Tables.Consistent;
    match step {
      case CommitWork(_) =>
        if Commit(s.tables, worker.insert, ToFailure(worker.event, worker.attempt)).Some? {
          CommitStepKeeps(base, s, w);
          MoveKeeps(base, s.(tables := s'.tables), w, s'.workers[w], s.acked);
        } else {
          MoveKeeps(base, s, w, Idle, s.acked);
        }
      case Acknowledge(_) =>
        MoveKeeps(base, s, w, Idle, s.acked + {worker.offset});
      case LookForFailure(_) =>
        var found := FindFailure(s.tables.failures, worker.event.merchant, worker.event.eventId);
        assert found.Some? ==> s.tables.HasFailure(worker.event.merchant, worker.event.eventId);
        MoveKeeps(base, s, w, s'.workers[w], s.acked);
      case LookForAttempt(_, _) =>
        var found := FindAttempt(s.tables.attempts, worker.event.merchant, worker.event.attemptId);
        assert found.Some? ==> HasAttemptRow(s.tables, found.value.id, worker.event.merchant, worker.event.attemptId);
        MoveKeeps(base, s, w, s'.workers[w], s.acked);
      case _ =>
        MoveKeeps(base, s, w, s'.workers[w], s.acked);
    }
  }

  // ---- whole runs ---------------------------------------------------------------

  ghost predicate Next(s: State, s': State) {
    exists step :: Apply(s, step) == Some(s')
  }

  /** Any interleaving of any length. */
  ghost predicate IsRun(base: Tables, run: seq<State>) {
    && |run| > 0 && Init(base, run[0])
    && forall i :: 0 <= i < |run| - 1 ==> Next(run[i], run[i + 1])
  }

  lemma {:induction false} RunKeeps(base: Tables, run: seq<State>, n: nat)
    requires IsRun(base, run) && n < |run|
    ensures Inv(base, run[n]) && run[n].log == run[0].log
  {
    if n > 0 {
      RunKeeps(base, run, n - 1);
      assert Next(run[n - 1], run[n]);
      var step :| Apply(run[n - 1], step) == Some(run[n]);
      InvKept(base, run[n - 1], step);
    } else {
      assert base.ExtendsTo(base);
    }
  }

  /** No committed row is ever altered or removed. */
  lemma {:induction false} RowsAreAppendOnly(base: Tables, run: seq<State>, i: nat, j: nat)
    requires IsRun(base, run) && i <= j < |run|
    ensures run[i].tables.ExtendsTo(run[j].tables)
    decreases j - i
  {
    if i < j {
      RunKeeps(base, run, j - 1);
      assert Next(run[j - 1], run[j]);
      var step :| Apply(run[j - 1], step) == Some(run[j]);
      InvKept(base, run[j - 1], step);
      RowsAreAppendOnly(base, run, i, j - 1);
    }
  }

  /** An event the system has promised to keep: schema-valid, and its merchant is provisioned. */
  ghost predicate Accepted(log: seq<Payload>, merchants: set<string>, merchant: string, eventId: string) {
    merchant in merchants
    && exists o :: 0 <= o < |log| && log[o].Valid? && log[o].event.merchant == merchant &&
        log[o].event.eventId == eventId
  }

  /** Exactly-once effect. At every moment of every run the failure table holds each (merchant, event) at most
      once, each row pointing at an attempt of its own merchant, and only rows that were there before or belong
      to an accepted event; once every offset has been acknowledged it holds all of them. */
  lemma ExactlyOnce(base: Tables, run: seq<State>, n: nat)
    requires IsRun(base, run) && n < |run|
    ensures run[n].tables.Consistent()
    ensures forall m, e :: run[n].tables.HasFailure(m, e) ==>
              base.HasFailure(m, e) || Accepted(run[0].log, base.merchants, m, e)
    ensures (forall o :: 0 <= o < |run[0].log| ==> o in run[n].acked) ==>
              forall m, e :: base.HasFailure(m, e) || Accepted(run[0].log, base.merchants, m, e) ==>
                    run[n].tables.HasFailure(m, e)
  {
    var s := run[n];
    RunKeeps(base, run, n);
    hide Tables.Consistent;
    assert forall k :: 0 <= k < |base.failures| ==> base.failures[k] == s.tables.failures[k];
    forall m, e | s.tables.HasFailure(m, e) && !base.HasFailure(m, e) ensures Accepted(s.log, base.merchants, m, e) {
      var i :| 0 <= i < |s.tables.failures| && s.tables.failures[i].merchant == m && s.tables.failures[i].eventId == e;
      var o :| 0 <= o < |s.log| && Explains(s, s.tables.failures[i], o);
    }
    if forall o :: 0 <= o < |s.log| ==> o in s.acked {
      forall m, e | Accepted(s.log, base.merchants, m, e) ensures s.tables.HasFailure(m, e) {
        var o :| 0 <= o < |s.log| && s.log[o].Valid? && s.log[o].event.merchant == m && s.log[o].event.eventId == e;
        assert o in s.acked && Settled(s, o);
      }
      forall m, e | base.HasFailure(m, e) ensures s.tables.HasFailure(m, e) {
        var i :| 0 <= i < |base.failures| && base.failures[i].merchant == m && base.failures[i].eventId == e;
        assert s.tables.failures[i] == base.failures[i];
      }
    }
  }

  /** Nothing is dropped silently: an acknowledged offset was malformed, named an unknown merchant, or has its row. */
  lemma AcknowledgedIsSettled(base: Tables, run: seq<State>, n: nat, offset: nat)
    requires IsRun(base, run) && n < |run| && offset in run[n].acked
    ensures Settled(run[n], offset)
  {
    RunKeeps(base, run, n);
  }

  /** No half-written transaction: every attempt row a run adds has a failure of its own merchant pointing at it. */
  lemma NoOrphanAttempts(base: Tables, run: seq<State>, n: nat, i: nat)
    requires IsRun(base, run) && n < |run|
    requires |base.attempts| <= i < |run[n].tables.attempts|
    ensures Referenced(run[n].tables, run[n].tables.attempts[i])
  {
    RunKeeps(base, run, n);
  }

  /** Racing workers are indistinguishable from taking turns: a commit that succeeds does to the tables exactly
      what ingesting the event alone, at that moment, would have done. */
  lemma CommitIsAtomicIngest(base: Tables, s: State, w: nat)
    requires Inv(base, s) && w < |s.workers| && s.workers[w].Writing?
    requires var worker := s.workers[w]; Commit(s.tables, worker.insert, ToFailure(worker.event, worker.attempt)).Some?
    ensures var worker := s.workers[w];
            IngestAlone(s.tables, worker.event, worker.attempt)
            == (Ok(IngestResult(worker.attempt, false)), Apply(s, CommitWork(w)).value.tables)
  {
    var worker := s.workers[w];
    var e := worker.event;
    assert WorkerOk(s, worker);
    assert FindFailure(s.tables.failures, e.merchant, e.eventId).None?;
    var found := FindAttempt(s.tables.attempts, e.merchant, e.attemptId);
    if worker.insert.Some? {
      assert !s.tables.HasAttempt(e.merchant, e.attemptId);
      assert found.None?;
    } else {
      assert found.Some? && found.value.id == worker.attempt;
    }
  }
}
