/** Exact sums over sequences, whole and under a mask: how they split, what factors and constants do to them, and the
    Cauchy-Schwarz inequality against a constant sequence with its case of equality. */
module Sums {

  function Sum(xs: seq<real>): real {
    if xs == [] then 0.0 else Sum(xs[..|xs| - 1]) + xs[|xs| - 1]
  }

  function Mean(xs: seq<real>): real
    requires xs != []
  {
    Sum(xs) / |xs| as real
  }

  /** The sum of `xs[i]` over the `i` that `keep` selects. */
  function SumWhere(xs: seq<real>, keep: seq<bool>): real
    requires |xs| == |keep|
  {
    if xs == [] then 0.0
    else
      var n := |xs| - 1;
      SumWhere(xs[..n], keep[..n]) + (if keep[n] then xs[n] else 0.0)
  }

  function CountWhere(keep: seq<bool>): nat {
    if keep == [] then 0 else CountWhere(keep[..|keep| - 1]) + (if keep[|keep| - 1] then 1 else 0)
  }

  function Abs(x: real): real {
    if x < 0.0 then -x else x
  }

  function Times(xs: seq<real>, ys: seq<real>): (zs: seq<real>)
    requires |xs| == |ys|
    ensures |zs| == |xs|
  {
    seq(|xs|, i requires 0 <= i < |xs| => xs[i] * ys[i])
  }

  function Less(xs: seq<real>, ys: seq<real>): (zs: seq<real>)
    requires |xs| == |ys|
  {
    seq(|xs|, i requires 0 <= i < |xs| => xs[i] - ys[i])
  }

  function Magnitudes(xs: seq<real>): (zs: seq<real>) {
    seq(|xs|, i requires 0 <= i < |xs| => Abs(xs[i]))
  }

  function Constant(n: nat, c: real): (xs: seq<real>) {
    seq(n, _ => c)
  }

  function SumOfSquares(xs: seq<real>): real {
    Sum(Times(xs, xs))
  }

  /** A product, named so that a proof can treat it as a number. */
  function Mul(x: real, y: real): real {
    x * y
  }

  lemma TimesSplit(xs: seq<real>, ys: seq<real>)
    requires |xs| == |ys| > 0
    ensures var n := |xs| - 1; Sum(Times(xs, ys)) == Sum(Times(xs[..n], ys[..n])) + Mul(xs[n], ys[n])
  {
    TimesFront(xs, ys, |xs| - 1);
  }

  lemma MulDistributes(c: real, x: real, y: real)
    ensures Mul(c, x + y) == Mul(c, x) + Mul(c, y)
  {
  }

  lemma Distribute(c: real, x: real, y: real)
    ensures c * (x + y) == c * x + c * y
  {
  }

  lemma TimesFront(xs: seq<real>, ys: seq<real>, n: nat)
    requires n <= |xs| == |ys|
    ensures Times(xs, ys)[..n] == Times(xs[..n], ys[..n])
  {
    forall i | 0 <= i < n ensures Times(xs, ys)[..n][i] == Times(xs[..n], ys[..n])[i] {
      assert Times(xs, ys)[i] == xs[i] * ys[i];
    }
  }

  lemma SumOfNext(xs: seq<real>, x: real)
    ensures Sum(xs + [x]) == Sum(xs) + x
  {
    assert (xs + [x])[..|xs|] == xs;
  }

  lemma SumWhereOfNext(xs: seq<real>, keep: seq<bool>, x: real, k: bool)
    requires |xs| == |keep|
    ensures SumWhere(xs + [x], keep + [k]) == SumWhere(xs, keep) + (if k then x else 0.0)
  {
    assert (xs + [x])[..|xs|] == xs && (keep + [k])[..|xs|] == keep;
  }

  lemma {:induction false} SumWhereAll(xs: seq<real>, keep: seq<bool>)
    requires |xs| == |keep|
    requires forall i :: 0 <= i < |keep| ==> keep[i]
    ensures SumWhere(xs, keep) == Sum(xs) && CountWhere(keep) == |xs|
  {
    if xs != [] {
      SumWhereAll(xs[..|xs| - 1], keep[..|xs| - 1]);
    }
  }

  lemma {:induction false} SumWhereNone(xs: seq<real>, keep: seq<bool>)
    requires |xs| == |keep|
    requires forall i :: 0 <= i < |keep| ==> !keep[i]
    ensures SumWhere(xs, keep) == 0.0 && CountWhere(keep) == 0
  {
    if xs != [] {
      SumWhereNone(xs[..|xs| - 1], keep[..|xs| - 1]);
    }
  }

  /** Two masks that never select the same place add up to their union. */
  lemma {:induction false} SumWhereEither(xs: seq<real>, a: seq<bool>, b: seq<bool>, either: seq<bool>)
    requires |xs| == |a| == |b| == |either|
    requires forall i :: 0 <= i < |xs| ==> !(a[i] && b[i]) && (either[i] <==> a[i] || b[i])
    ensures SumWhere(xs, either) == SumWhere(xs, a) + SumWhere(xs, b)
    ensures CountWhere(either) == CountWhere(a) + CountWhere(b)
  {
    if xs != [] {
      var n := |xs| - 1;
      SumWhereEither(xs[..n], a[..n], b[..n], either[..n]);
    }
  }

  lemma {:induction false} SumWhereOfLess(xs: seq<real>, ys: seq<real>, keep: seq<bool>)
    requires |xs| == |ys| == |keep|
    ensures SumWhere(Less(xs, ys), keep) == SumWhere(xs, keep) - SumWhere(ys, keep)
  {
    if xs != [] {
      var n := |xs| - 1;
      SumWhereOfLess(xs[..n], ys[..n], keep[..n]);
      assert Less(xs, ys)[..n] == Less(xs[..n], ys[..n]);
    }
  }

  /** A factor that is the same wherever the mask selects comes out of the sum. */
  lemma {:induction false} SumWhereOfScaled(xs: seq<real>, ys: seq<real>, keep: seq<bool>, c: real)
    requires |xs| == |ys| == |keep|
    requires forall i :: 0 <= i < |xs| && keep[i] ==> xs[i] == c
    ensures SumWhere(Times(xs, ys), keep) == Mul(c, SumWhere(ys, keep))
  {
    if xs != [] {
      var n := |xs| - 1;
      SumWhereOfScaled(xs[..n], ys[..n], keep[..n], c);
      TimesFront(xs, ys, n);
      assert Times(xs, ys)[n] == Mul(xs[n], ys[n]);
      hide Mul, Times;
      MulDistributes(c, SumWhere(ys[..n], keep[..n]), ys[n]);
    }
  }

  lemma {:induction false} SumWhereOfConstant(xs: seq<real>, keep: seq<bool>, c: real)
    requires |xs| == |keep|
    requires forall i :: 0 <= i < |xs| && keep[i] ==> xs[i] == c
    ensures SumWhere(xs, keep) == c * CountWhere(keep) as real
  {
    if xs != [] {
      var n := |xs| - 1;
      SumWhereOfConstant(xs[..n], keep[..n], c);
    }
  }

  lemma {:induction false} CountIsPositive(keep: seq<bool>, i: nat)
    requires i < |keep| && keep[i]
    ensures CountWhere(keep) > 0
  {
    if i < |keep| - 1 {
      CountIsPositive(keep[..|keep| - 1], i);
    }
  }

  lemma {:induction false} CountIsAtMostLength(keep: seq<bool>)
    ensures CountWhere(keep) <= |keep|
    ensures CountWhere(keep) == |keep| <==> forall i :: 0 <= i < |keep| ==> keep[i]
  {
    if keep != [] {
      CountIsAtMostLength(keep[..|keep| - 1]);
      assert forall i :: 0 <= i < |keep| - 1 ==> keep[..|keep| - 1][i] == keep[i];
    }
  }

  /** The triangle inequality, under a mask, and against the whole. */
  lemma {:induction false} TriangleWhere(xs: seq<real>, keep: seq<bool>)
    requires |xs| == |keep|
    ensures Abs(SumWhere(xs, keep)) <= SumWhere(Magnitudes(xs), keep) <= Sum(Magnitudes(xs))
  {
    if xs != [] {
      var n := |xs| - 1;
      TriangleWhere(xs[..n], keep[..n]);
      assert Magnitudes(xs)[..n] == Magnitudes(xs[..n]);
    }
  }

  /** How far `xs` is spread about `m`, expanded. */
  lemma {:induction false} Spread(xs: seq<real>, m: real)
    ensures SumOfSquares(Less(xs, Constant(|xs|, m))) == Expanded(SumOfSquares(xs), Sum(xs), |xs| as real, m)
  {
    if xs != [] {
      hide Expanded, SumOfSquares, Square;
      var n := |xs| - 1;
      var front, x := xs[..n], xs[n];
      var d := Less(xs, Constant(|xs|, m));
      Spread(front, m);
      assert d[..n] == Less(front, Constant(n, m));
      SquaresSplit(xs);
      SquaresSplit(d);
      ExpandedNext(SumOfSquares(front), Sum(front), n as real, m, x);
      assert d[n] == x - m;
    } else {
      assert Less(xs, Constant(0, m)) == [] && Times(xs, xs) == [];
    }
  }

  function Expanded(q: real, s: real, n: real, m: real): real {
    q - 2.0 * m * s + n * m * m
  }

  lemma ExpandedNext(q: real, s: real, n: real, m: real, x: real)
    ensures Expanded(q + Square(x), s + x, n + 1.0, m) == Expanded(q, s, n, m) + Square(x - m)
  {
    assert (x - m) * (x - m) == x * x - 2.0 * m * x + m * m;
    assert 2.0 * m * (s + x) == 2.0 * m * s + 2.0 * m * x;
    assert (n + 1.0) * m * m == n * m * m + m * m;
  }

  lemma SquaresSplit(xs: seq<real>)
    requires xs != []
    ensures var n := |xs| - 1; SumOfSquares(xs) == SumOfSquares(xs[..n]) + Square(xs[n])
  {
    TimesFront(xs, xs, |xs| - 1);
  }

  function Square(x: real): real {
    x * x
  }

  lemma SquareIsNonNegative(x: real)
    ensures x == 0.0 ==> Square(x) == 0.0
    ensures x != 0.0 ==> Square(x) > 0.0
  {
    if x != 0.0 {
      var y := Abs(x);
      var half := y / 2.0;
      assert y * half > 0.0;
      assert Square(y) == 2.0 * (y * half);
      assert Square(y) == Square(x);
    }
  }

  lemma {:induction false} SquaresAreNonNegative(xs: seq<real>)
    ensures SumOfSquares(xs) >= 0.0
    ensures SumOfSquares(xs) == 0.0 <==> forall i :: 0 <= i < |xs| ==> xs[i] == 0.0
  {
    if xs != [] {
      var n := |xs| - 1;
      SquaresAreNonNegative(xs[..n]);
      SquaresSplit(xs);
      hide Square;
      SquareIsNonNegative(xs[n]);
      if SumOfSquares(xs) == 0.0 {
        assert Square(xs[n]) == 0.0;
        assert forall i :: 0 <= i < n ==> xs[..n][i] == 0.0;
      } else if xs[n] == 0.0 {
        var i :| 0 <= i < n && xs[..n][i] != 0.0;
        assert xs[i] != 0.0;
      }
    } else {
      assert Times(xs, xs) == [];
    }
  }

  ghost predicate AllEqual(xs: seq<real>) {
    forall i, j :: 0 <= i < j < |xs| ==> xs[i] == xs[j]
  }

  /** Cauchy-Schwarz against the constant sequence, with its case of equality. */
  lemma {:induction false} SquareOfSum(xs: seq<real>)
    ensures Square(Sum(xs)) <= |xs| as real * SumOfSquares(xs)
    ensures Square(Sum(xs)) == |xs| as real * SumOfSquares(xs) <==> AllEqual(xs)
  {
    if xs != [] {
      hide SumOfSquares, Sum, Expanded, Less, Mean, AllEqual, Square;
      Spread(xs, Mean(xs));
      SquaresAreNonNegative(Less(xs, Constant(|xs|, Mean(xs))));
      NoSpreadIffEqual(xs);
      MeanIdentity(xs);
    }
  }

  lemma NoSpreadIffEqual(xs: seq<real>)
    requires xs != []
    ensures var d := Less(xs, Constant(|xs|, Mean(xs))); AllEqual(xs) <==> forall i :: 0 <= i < |d| ==> d[i] == 0.0
  {
    if AllEqual(xs) {
      MeanOfEqual(xs, xs[0]);
    }
    hide Mean;
    var m := Mean(xs);
    var d := Less(xs, Constant(|xs|, m));
    assert forall i :: 0 <= i < |d| ==> d[i] == xs[i] - m;
    if AllEqual(xs) {
      assert forall i :: 0 <= i < |d| ==> xs[i] == xs[0];
    } else {
      var i, j :| 0 <= i < j < |xs| && xs[i] != xs[j];
      assert d[i] - d[j] == xs[i] - xs[j];
    }
  }

  lemma Cancel(n: real, x: real)
    requires n > 0.0
    ensures (n * x) / n == x
  {
  }

  lemma MeanIdentity(xs: seq<real>)
    requires xs != []
    ensures var n, s, q := |xs| as real, Sum(xs), SumOfSquares(xs);
            && (Expanded(q, s, n, Mean(xs)) >= 0.0 ==> Square(s) <= n * q)
            && (Square(s) == n * q <==> Expanded(q, s, n, Mean(xs)) == 0.0)
  {
    hide Sum, SumOfSquares, Square;
    var n, s, q := |xs| as real, Sum(xs), SumOfSquares(xs);
    ExpandedAtQuotient(n, s, q);
  }

  lemma ExpandedAtQuotient(n: real, s: real, q: real)
    requires n > 0.0
    ensures Expanded(q, s, n, s / n) >= 0.0 ==> Square(s) <= n * q
    ensures Square(s) == n * q <==> Expanded(q, s, n, s / n) == 0.0
  {
    var m := s / n;
    assert m * n == s;
    assert n * m * m == s * m;
    assert Expanded(q, s, n, m) == q - s * m;
    assert n * (s * m) == s * s;
    assert n * Expanded(q, s, n, m) == n * q - s * s;
  }

  lemma {:induction false} SumOfEqual(xs: seq<real>, c: real)
    requires forall i :: 0 <= i < |xs| ==> xs[i] == c
    ensures Sum(xs) == |xs| as real * c
  {
    if xs != [] {
      SumOfEqual(xs[..|xs| - 1], c);
    }
  }

  lemma MeanOfEqual(xs: seq<real>, c: real)
    requires xs != [] && forall i :: 0 <= i < |xs| ==> xs[i] == c
    ensures Mean(xs) == c
  {
    SumOfEqual(xs, c);
    Cancel(|xs| as real, c);
  }

  lemma MeanTimesCount(xs: seq<real>)
    requires xs != []
    ensures Mean(xs) * |xs| as real == Sum(xs)
  {
    var s, n := Sum(xs), |xs| as real;
    assert s / n * n == s;
  }

  function Plus(xs: seq<real>, ys: seq<real>): (zs: seq<real>)
    requires |xs| == |ys|
    ensures |zs| == |xs|
  {
    seq(|xs|, i requires 0 <= i < |xs| => xs[i] + ys[i])
  }

  lemma {:induction false} SumOfPlus(xs: seq<real>, ys: seq<real>)
    requires |xs| == |ys|
    ensures Sum(Plus(xs, ys)) == Sum(xs) + Sum(ys)
  {
    if xs != [] {
      var n := |xs| - 1;
      SumOfPlus(xs[..n], ys[..n]);
      assert Plus(xs, ys)[..n] == Plus(xs[..n], ys[..n]);
    }
  }

  lemma QuotientOfSum(x: real, y: real, n: real)
    requires n > 0.0
    ensures (x + y) / n == x / n + y / n
  {
  }

  lemma MeanOfPlus(xs: seq<real>, ys: seq<real>)
    requires |xs| == |ys| > 0
    ensures Mean(Plus(xs, ys)) == Mean(xs) + Mean(ys)
  {
    hide Sum, Plus;
    SumOfPlus(xs, ys);
    QuotientOfSum(Sum(xs), Sum(ys), |xs| as real);
  }
}
