/** The two append-only tables, their constraints, and one ingest run on its own. */
module IngestTables {
  import opened Common

  /** A schema-valid `payment_failed.v1` event. `attemptFields` and `failureFields` stand for the columns each
      row copies without looking at them. */
  datatype FailedEvent = FailedEvent(merchant: string, eventId: string, attemptId: string,
                                     attemptFields: string, failureFields: string)

  datatype AttemptRow = AttemptRow(id: nat, merchant: string, attemptId: string, fields: string)

  datatype FailureRow = FailureRow(merchant: string, eventId: string, attempt: nat, fields: string)

  datatype Tables = Tables(merchants: set<string>, attempts: seq<AttemptRow>, failures: seq<FailureRow>) {
    predicate HasFailure(merchant: string, eventId: string) {
      exists i :: 0 <= i < |failures| && failures[i].merchant == merchant && failures[i].eventId == eventId
    }

    predicate HasAttempt(merchant: string, attemptId: string) {
      exists i :: 0 <= i < |attempts| && attempts[i].merchant == merchant && attempts[i].attemptId == attemptId
    }

    /** `uq_payment_attempts_key`, the primary key, and the tenant foreign key. */
    predicate AdmitsAttempt(row: AttemptRow) {
      && row.merchant in merchants
      && !HasAttempt(row.merchant, row.attemptId)
      && forall i :: 0 <= i < |attempts| ==> attempts[i].id != row.id
    }

    /** `uq_failure_events_event`, and the composite foreign key that keeps a failure inside its tenant. */
    predicate AdmitsFailure(row: FailureRow) {
      && !HasFailure(row.merchant, row.eventId)
      && exists i :: 0 <= i < |attempts| && attempts[i].id == row.attempt && attempts[i].merchant == row.merchant
    }

    /** What the constraints add up to over everything committed. */
    ghost predicate Consistent() {
      && (forall i, j :: 0 <= i < j < |failures| ==>
            failures[i].merchant != failures[j].merchant || failures[i].eventId != failures[j].eventId)
      && (forall i, j :: 0 <= i < j < |attempts| ==>
            attempts[i].merchant != attempts[j].merchant || attempts[i].attemptId != attempts[j].attemptId)
      && (forall i, j :: 0 <= i < j < |attempts| ==> attempts[i].id != attempts[j].id)
      && (forall i :: 0 <= i < |failures| ==> PointsHome(failures[i]))
    }

    /** The failure's attempt exists and belongs to the same merchant. */
    ghost predicate PointsHome(row: FailureRow) {
      exists j :: 0 <= j < |attempts| && attempts[j].id == row.attempt && attempts[j].merchant == row.merchant
    }

    /** Rows are only ever added, and never altered. */
    ghost predicate ExtendsTo(later: Tables) {
      later.merchants == merchants && attempts <= later.attempts && failures <= later.failures
    }
  }

  function FindAttempt(attempts: seq<AttemptRow>, merchant: string, attemptId: string): (found: Option<AttemptRow>)
    ensures found.Some? ==>
              found.value in attempts && found.value.merchant == merchant && found.value.attemptId == attemptId
    ensures found.None? ==>
              forall i :: 0 <= i < |attempts| ==> attempts[i].merchant != merchant || attempts[i].attemptId != attemptId
  {
    if attempts == [] then None
    else if attempts[0].merchant == merchant && attempts[0].attemptId == attemptId then Some(attempts[0])
    else FindAttempt(attempts[1..], merchant, attemptId)
  }

  function FindFailure(failures: seq<FailureRow>, merchant: string, eventId: string): (found: Option<FailureRow>)
    ensures found.Some? ==>
              found.value in failures && found.value.merchant == merchant && found.value.eventId == eventId
    ensures found.None? ==>
              forall i :: 0 <= i < |failures| ==> failures[i].merchant != merchant || failures[i].eventId != eventId
  {
    if failures == [] then None
    else if failures[0].merchant == merchant && failures[0].eventId == eventId then Some(failures[0])
    else FindFailure(failures[1..], merchant, eventId)
  }

  function ToAttempt(e: FailedEvent, id: nat): AttemptRow {
    AttemptRow(id, e.merchant, e.attemptId, e.attemptFields)
  }

  function ToFailure(e: FailedEvent, attempt: nat): FailureRow {
    FailureRow(e.merchant, e.eventId, attempt, e.failureFields)
  }

  /** Commit a transaction's inserts. A violation commits nothing. */
  function Commit(t: Tables, newAttempt: Option<AttemptRow>, failure: FailureRow): Option<Tables> {
    if newAttempt.Some? && !t.AdmitsAttempt(newAttempt.value) then None
    else
      var t1 := if newAttempt.Some? then t.(attempts := t.attempts + [newAttempt.value]) else t;
      if t1.AdmitsFailure(failure) then Some(t1.(failures := t1.failures + [failure])) else None
  }

  datatype IngestError = UnknownMerchant(merchant: string) | IntegrityViolation

  datatype IngestResult = IngestResult(attempt: nat, duplicate: bool)

  /** What ingesting one event means when nothing else is running. */
  function IngestAlone(t: Tables, e: FailedEvent, freshId: nat): (Result<IngestResult, IngestError>, Tables) {
    if e.merchant !in t.merchants then (Err(UnknownMerchant(e.merchant)), t)
    else
      var existing := FindFailure(t.failures, e.merchant, e.eventId);
      if existing.Some? then (Ok(IngestResult(existing.value.attempt, true)), t)
      else
        var found := FindAttempt(t.attempts, e.merchant, e.attemptId);
        var newAttempt := if found.Some? then None else Some(ToAttempt(e, freshId));
        var attempt := if found.Some? then found.value.id else freshId;
        match Commit(t, newAttempt, ToFailure(e, attempt))
        case Some(t') => (Ok(IngestResult(attempt, false)), t')
        case None => (Err(IntegrityViolation), t)
  }

  datatype Payload = Malformed | Valid(event: FailedEvent)

  datatype Delivery = Acknowledged | Redeliver

  /** The consumer and the service it calls, one message at a time. */
  class PaymentFailedConsumer {
    var tables: Tables

    constructor (t: Tables)
      ensures tables == t
    {
      tables := t;
    }

    method Ingest(e: FailedEvent, freshId: nat) returns (r: Result<IngestResult, IngestError>)
      modifies this
      ensures (r, tables) == IngestAlone(old(tables), e, freshId)
    {
      if e.merchant !in tables.merchants {
        return Err(UnknownMerchant(e.merchant));
      }
      var existing := FindFailure(tables.failures, e.merchant, e.eventId);
      if existing.Some? {
        return Ok(IngestResult(existing.value.attempt, true));
      }
      var begun := tables;
      var found := FindAttempt(tables.attempts, e.merchant, e.attemptId);
      var attempt: nat;
      if found.Some? {
        attempt := found.value.id;
      } else {
        var row := ToAttempt(e, freshId);
        if !tables.AdmitsAttempt(row) {
          return Err(IntegrityViolation);
        }
        tables := tables.(attempts := tables.attempts + [row]);
        attempt := freshId;
      }
      var failure := ToFailure(e, attempt);
      if !tables.AdmitsFailure(failure) {
        tables := begun;
        return Err(IntegrityViolation);
      }
      tables := tables.(failures := tables.failures + [failure]);
      r := Ok(IngestResult(attempt, false));
    }

    /** A message is acknowledged exactly when redelivering it could not change anything: it is malformed,
        its merchant is unknown, or its failure row is in the table. */
    method OnMessage(payload: Payload, freshId: nat) returns (d: Delivery)
      requires tables.Consistent()
      modifies this
      ensures tables.Consistent() && old(tables).ExtendsTo(tables)
      ensures d.Acknowledged? <==>
                payload.Malformed? || payload.event.merchant !in tables.merchants
                || tables.HasFailure(payload.event.merchant, payload.event.eventId)
      ensures d.Redeliver? ==> tables == old(tables)
    {
      if payload.Malformed? {
        return Acknowledged;
      }
      var r := Ingest(payload.event, freshId);
      IngestKeeps(old(tables), payload.event, freshId);
      if r.Ok? || r.error.UnknownMerchant? {
        return Acknowledged;
      }
      d := Redeliver;
    }
  }

  lemma CommitKeeps(t: Tables, newAttempt: Option<AttemptRow>, failure: FailureRow)
    requires t.Consistent()
    ensures var c := Commit(t, newAttempt, failure);
            c.Some? ==>
              && c.value.Consistent() && t.ExtendsTo(c.value)
              && c.value.failures == t.failures + [failure]
              && c.value.HasFailure(failure.merchant, failure.eventId)
  {
    var c := Commit(t, newAttempt, failure);
    if c.Some? {
      var t1 := if newAttempt.Some? then t.(attempts := t.attempts + [newAttempt.value]) else t;
      assert t1.Consistent() by {
        forall i | 0 <= i < |t.failures| ensures t1.PointsHome(t.failures[i]) {
          assert t.PointsHome(t.failures[i]);
          var j :| 0 <= j < |t.attempts| && t.attempts[j].id == t.failures[i].attempt &&
              t.attempts[j].merchant == t.failures[i].merchant;
          assert t1.attempts[j] == t.attempts[j];
        }
      }
      var t2 := c.value;
      assert t1.PointsHome(failure);
      forall i | 0 <= i < |t2.failures| ensures t2.PointsHome(t2.failures[i]) {
        assert i < |t1.failures| ==> t1.PointsHome(t1.failures[i]);
      }
      assert t2.failures[|t1.failures|] == failure;
    }
  }

  lemma IngestKeeps(t: Tables, e: FailedEvent, freshId: nat)
    requires t.Consistent()
    ensures var (r, t') := IngestAlone(t, e, freshId);
            && t'.Consistent() && t.ExtendsTo(t')
            && (r.Ok? ==> t'.HasFailure(e.merchant, e.eventId))
            && (r.Err? ==> t' == t)
            && (r == Err(IntegrityViolation) <==>
                  && e.merchant in t.merchants
                  && !t.HasFailure(e.merchant, e.eventId) && !t.HasAttempt(e.merchant, e.attemptId)
                  && exists i :: 0 <= i < |t.attempts| && t.attempts[i].id == freshId)
  {
    var found := FindAttempt(t.attempts, e.merchant, e.attemptId);
    var newAttempt := if found.Some? then None else Some(ToAttempt(e, freshId));
    var attempt := if found.Some? then found.value.id else freshId;
    CommitKeeps(t, newAttempt, ToFailure(e, attempt));
    assert FindFailure(t.failures, e.merchant, e.eventId).Some? <==> t.HasFailure(e.merchant, e.eventId);
    assert found.Some? <==> t.HasAttempt(e.merchant, e.attemptId);
    var t1 := if newAttempt.Some? then t.(attempts := t.attempts + [newAttempt.value]) else t;
    assert newAttempt.Some? ==> t1.attempts[|t.attempts|] == newAttempt.value;
  }

  /** What one ingest does: an unknown merchant is refused; a known event is reported with its attempt; a new one is
      appended under the attempt of its name, which is found or else made. */
  lemma IngestIs(t: Tables, e: FailedEvent, freshId: nat)
    requires t.Consistent()
    ensures var (r, t') := IngestAlone(t, e, freshId);
            && (r == Err(UnknownMerchant(e.merchant)) <==> e.merchant !in t.merchants)
            && (r.Ok? ==>
                  && (r.value.duplicate <==> t.HasFailure(e.merchant, e.eventId))
                  && (r.value.duplicate ==> t' == t)
                  && (!r.value.duplicate ==>
                        && t'.failures ==
                           t.failures + [FailureRow(e.merchant, e.eventId, r.value.attempt, e.failureFields)]
                        && t'.attempts ==
                           (if t.HasAttempt(e.merchant, e.attemptId) then t.attempts
                            else t.attempts + [AttemptRow(freshId, e.merchant, e.attemptId, e.attemptFields)])
                        && exists a :: a in t'.attempts && a.id == r.value.attempt
                                       && a.merchant == e.merchant && a.attemptId == e.attemptId))
  {
    var found := FindAttempt(t.attempts, e.merchant, e.attemptId);
    assert FindFailure(t.failures, e.merchant, e.eventId).Some? <==> t.HasFailure(e.merchant, e.eventId);
    assert found.Some? <==> t.HasAttempt(e.merchant, e.attemptId);
    var row := if found.Some? then found.value else ToAttempt(e, freshId);
    assert (t.attempts + [row])[|t.attempts|] == row;
    var (r, t') := IngestAlone(t, e, freshId);
    if r.Ok? && !r.value.duplicate {
      assert row in t'.attempts;
    }
  }

  lemma TheOnlyRow(t: Tables, row: FailureRow)
    requires t.Consistent() && row in t.failures
    ensures FindFailure(t.failures, row.merchant, row.eventId) == Some(row)
  {
  }

  /** A successful ingest leaves a row for the event that carries the attempt it reported. */
  lemma IngestLeavesRow(t: Tables, e: FailedEvent, freshId: nat) returns (row: FailureRow)
    requires t.Consistent() && IngestAlone(t, e, freshId).0.Ok?
    ensures row in IngestAlone(t, e, freshId).1.failures
    ensures row.merchant == e.merchant && row.eventId == e.eventId
    ensures row.attempt == IngestAlone(t, e, freshId).0.value.attempt
  {
    var existing := FindFailure(t.failures, e.merchant, e.eventId);
    if existing.Some? {
      row := existing.value;
    } else {
      var found := FindAttempt(t.attempts, e.merchant, e.attemptId);
      row := ToFailure(e, if found.Some? then found.value.id else freshId);
      CommitKeeps(t, if found.Some? then None else Some(ToAttempt(e, freshId)), row);
    }
  }

  /** Redelivery is a no-op: a second ingest of the same event reports a duplicate of the first and changes
      nothing, whatever else has been ingested in between. */
  lemma RedeliveryIsNoOp(t: Tables, e: FailedEvent, freshId: nat, later: Tables, again: nat)
    requires t.Consistent() && later.Consistent()
    requires IngestAlone(t, e, freshId).0.Ok? && IngestAlone(t, e, freshId).1.ExtendsTo(later)
    ensures IngestAlone(later, e, again)
         == (Ok(IngestResult(IngestAlone(t, e, freshId).0.value.attempt, true)), later)
  {
    IngestKeeps(t, e, freshId);
    var row := IngestLeavesRow(t, e, freshId);
    var t' := IngestAlone(t, e, freshId).1;
    hide Tables.Consistent, Commit;
    assert t'.failures <= later.failures;
    assert row in later.failures;
    TheOnlyRow(later, row);
  }
}
