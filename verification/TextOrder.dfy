/** The order of strings, character by character: it is the order of where they first differ, it is strict and total,
    and a common front does not change it. */
module TextOrder {
  predicate Precedes(a: string, b: string) {
    if a == [] then b != []
    else b != [] && (a[0] < b[0] || (a[0] == b[0] && Precedes(a[1..], b[1..])))
  }

  lemma {:induction false} PrecedesIsTransitive(a: string, b: string, c: string)
    requires Precedes(a, b) && Precedes(b, c)
    ensures Precedes(a, c)
  {
    if a != [] && a[0] == b[0] == c[0] {
      PrecedesIsTransitive(a[1..], b[1..], c[1..]);
    }
  }

  lemma {:induction false} PrecedesIsTotal(a: string, b: string)
    ensures a == b || Precedes(a, b) || Precedes(b, a)
  {
    if a != [] && b != [] && a[0] == b[0] {
      PrecedesIsTotal(a[1..], b[1..]);
      assert a == [a[0]] + a[1..] && b == [b[0]] + b[1..];
    }
  }

  lemma {:induction false} NotBoth(a: string, b: string)
    requires Precedes(a, b)
    ensures !Precedes(b, a)
  {
    if a != [] && b != [] {
      if a[0] == b[0] {
        NotBoth(a[1..], b[1..]);
      }
    }
  }

  /** The strings agree up to here, where the one ends or has the smaller character. */
  ghost predicate Differ(a: string, b: string, n: nat) {
    n <= |a| && n < |b| && a[..n] == b[..n] && (n < |a| ==> a[n] < b[n])
  }

  lemma SameHeads(a: string, b: string)
    ensures forall n: nat :: Differ(a, b, n) && n > 0 ==> a != [] && b != [] && a[0] == b[0]
  {
    forall n: nat | Differ(a, b, n) && n > 0 ensures a != [] && b != [] && a[0] == b[0] {
      assert a[0] == a[..n][0] && b[0] == b[..n][0];
    }
  }

  lemma DifferLater(a: string, b: string, n: nat)
    requires a != [] && b != [] && a[0] == b[0]
    ensures Differ(a, b, n + 1) <==> Differ(a[1..], b[1..], n)
  {
    if n <= |a| - 1 && n < |b| - 1 {
      assert a[..n + 1] == [a[0]] + a[1..][..n] && b[..n + 1] == [b[0]] + b[1..][..n];
      assert a[..n + 1][1..] == a[1..][..n] && b[..n + 1][1..] == b[1..][..n];
    }
  }

  /** One string comes before another where they first differ, or where it ends. */
  lemma {:induction false} PrecedesIff(a: string, b: string)
    ensures Precedes(a, b) <==> exists n: nat :: Differ(a, b, n)
  {
    SameHeads(a, b);
    if a != [] && b != [] && a[0] == b[0] {
      PrecedesIff(a[1..], b[1..]);
      if n: nat :| Differ(a[1..], b[1..], n) {
        DifferLater(a, b, n);
      }
      if n: nat :| Differ(a, b, n) {
        assert n > 0;
        DifferLater(a, b, n - 1);
      }
    } else if Precedes(a, b) {
      assert Differ(a, b, 0);
    }
  }

  lemma FirstLettersDecide(a: string, b: string)
    requires a != [] && b != [] && a[0] < b[0]
    ensures Precedes(a, b)
  {
  }

  lemma {:induction false} AfterSameFront(front: string, a: string, b: string)
    requires a != [] && b != [] && a[0] < b[0]
    ensures Precedes(front + a, front + b)
  {
    if front == [] {
      assert front + a == a && front + b == b;
    } else {
      AfterSameFront(front[1..], a, b);
      assert (front + a)[1..] == front[1..] + a && (front + b)[1..] == front[1..] + b;
    }
  }
}
