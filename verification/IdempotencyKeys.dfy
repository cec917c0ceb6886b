/** Idempotency keys are derived from what they stand for, and distinct exactly when the ids do not contain the
    separator. */
module IdempotencyKeys {
  import opened Common
  import opened JoinedText
  import opened Numerals

  const NUL: char := '\0'

  datatype Operation = Retry | PaymentLink | Refund | Reconcile {
    function Name(): string {
      match this
      case Retry => "RETRY"
      case PaymentLink => "PAYMENT_LINK"
      case Refund => "REFUND"
      case Reconcile => "RECONCILE"
    }
  }

  function Parts(merchant: string, attempt: string, operation: Operation, ordinal: nat): (parts: seq<string>)
    ensures |parts| == 5
  {
    ["slv", merchant, attempt, operation.Name(), Str(ordinal)]
  }

  /** What is hashed into a key; an ordinal below one is refused. */
  function Material(merchant: string, attempt: string, operation: Operation, ordinal: int): Option<string> {
    if ordinal < 1 then None else Some(Join(Parts(merchant, attempt, operation, ordinal), NUL))
  }

  /** Written out, with a NUL between the parts; there is none for an ordinal below one. */
  lemma MaterialIs(merchant: string, attempt: string, operation: Operation, ordinal: int)
    ensures Material(merchant, attempt, operation, ordinal).None? <==> ordinal < 1
    ensures ordinal >= 1 ==>
              Material(merchant, attempt, operation, ordinal) ==
              Some("slv" + [NUL] + (merchant + [NUL] + (attempt + [NUL] + (operation.Name() + [NUL] + Str(ordinal)))))
  {
    if ordinal >= 1 {
      hide Join, Operation.Name;
      var p := Parts(merchant, attempt, operation, ordinal);
      JoinOne(p[4], NUL);
      JoinMore(p[3], [p[4]], NUL);
      JoinMore(p[2], [p[3], p[4]], NUL);
      JoinMore(p[1], [p[2], p[3], p[4]], NUL);
      JoinMore(p[0], [p[1], p[2], p[3], p[4]], NUL);
      assert p == [p[0]] + [p[1], p[2], p[3], p[4]];
      assert [p[1], p[2], p[3], p[4]] == [p[1]] + [p[2], p[3], p[4]];
      assert [p[2], p[3], p[4]] == [p[2]] + [p[3], p[4]] && [p[3], p[4]] == [p[3]] + [p[4]];
    }
  }

  lemma NamesArePlain(operation: Operation, other: Operation)
    ensures NUL !in operation.Name()
    ensures operation.Name() == other.Name() ==> operation == other
  {
    assert operation.Name()[|operation.Name()| - 1] == other.Name()[|other.Name()| - 1] ||
           operation.Name() != other.Name();
    assert |Retry.Name()| == 5 && |PaymentLink.Name()| == 12 && |Refund.Name()| == 6 && |Reconcile.Name()| == 9;
  }

  lemma PartsArePlain(merchant: string, attempt: string, operation: Operation, ordinal: nat)
    requires NUL !in merchant && NUL !in attempt
    ensures Plain(Parts(merchant, attempt, operation, ordinal), NUL)
  {
    NamesArePlain(operation, operation);
    assert NUL !in Str(ordinal);
    assert NUL !in "slv";
  }

  /** Different actions never share key material exactly when the tenant and the attempt contain no NUL. */
  lemma MaterialIsDistinctIff(merchant: string, attempt: string, operation: Operation, ordinal: nat)
    requires ordinal >= 1
    ensures (NUL !in merchant && NUL !in attempt) <==>
            forall merchant', attempt', operation', ordinal': nat ::
              Material(merchant', attempt', operation', ordinal') == Material(merchant, attempt, operation, ordinal)
              ==> merchant' == merchant && attempt' == attempt && operation' == operation && ordinal' == ordinal
  {
    hide Join;
    if NUL !in merchant && NUL !in attempt {
      forall merchant', attempt', operation', ordinal': nat
        | Material(merchant', attempt', operation', ordinal') == Material(merchant, attempt, operation, ordinal)
        ensures merchant' == merchant && attempt' == attempt && operation' == operation && ordinal' == ordinal
      {
        var a, b := Parts(merchant, attempt, operation, ordinal), Parts(merchant', attempt', operation', ordinal');
        PartsArePlain(merchant, attempt, operation, ordinal);
        PlainFieldsAreDetermined(a, b, NUL);
        assert a[1] == b[1] && a[2] == b[2] && a[3] == b[3] && a[4] == b[4];
        NamesArePlain(operation, operation');
        ValueOfStr(ordinal);
        ValueOfStr(ordinal');
      }
    } else {
      var merchant', attempt' := Twin(merchant, attempt, operation, ordinal);
      assert Material(merchant', attempt', operation, ordinal) == Material(merchant, attempt, operation, ordinal);
    }
  }

  lemma Twin(merchant: string, attempt: string, operation: Operation, ordinal: nat)
    returns (merchant': string, attempt': string)
    requires ordinal >= 1 && (NUL in merchant || NUL in attempt)
    ensures merchant' != merchant
    ensures Material(merchant', attempt', operation, ordinal) == Material(merchant, attempt, operation, ordinal)
  {
    hide Join;
    var rest := [operation.Name(), Str(ordinal)];
    if NUL in merchant {
      var x, y := SplitAt(merchant, NUL);
      merchant', attempt' := x, y + [NUL] + attempt;
      SeparatorMoves(["slv"], x, y, attempt, rest, NUL);
      assert Parts(merchant, attempt, operation, ordinal) == ["slv"] + [x + [NUL] + y, attempt] + rest;
      assert Parts(merchant', attempt', operation, ordinal) == ["slv"] + [x, y + [NUL] + attempt] + rest;
    } else {
      var x, y := SplitAt(attempt, NUL);
      merchant', attempt' := merchant + [NUL] + x, y;
      SeparatorMoves(["slv"], merchant, x, y, rest, NUL);
      assert Parts(merchant, attempt, operation, ordinal) == ["slv"] + [merchant, x + [NUL] + y] + rest;
      assert Parts(merchant', attempt', operation, ordinal) == ["slv"] + [merchant + [NUL] + x, y] + rest;
    }
  }
}
