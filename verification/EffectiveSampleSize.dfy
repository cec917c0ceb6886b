/** Kish's effective sample size of a sequence of importance weights, its bounds, and when they are reached. */
module EffectiveSampleSize {
  import opened Sums

  function Kish(weights: seq<real>): real {
    Ratio(Square(Sum(weights)), SumOfSquares(weights))
  }

  function Ratio(x: real, y: real): real {
    if y <= 0.0 then 0.0 else x / y
  }

  ghost predicate NonNegative(xs: seq<real>) {
    forall i :: 0 <= i < |xs| ==> xs[i] >= 0.0
  }

  function Positives(xs: seq<real>): (ps: seq<real>) {
    if xs == [] then []
    else Positives(xs[..|xs| - 1]) + (if xs[|xs| - 1] > 0.0 then [xs[|xs| - 1]] else [])
  }

  function Scaled(c: real, xs: seq<real>): seq<real> {
    seq(|xs|, i requires 0 <= i < |xs| => c * xs[i])
  }

  lemma {:induction false} PositivesCarryTheSums(xs: seq<real>)
    requires NonNegative(xs)
    ensures Sum(Positives(xs)) == Sum(xs) && SumOfSquares(Positives(xs)) == SumOfSquares(xs)
    ensures forall i :: 0 <= i < |Positives(xs)| ==> Positives(xs)[i] > 0.0
  {
    hide SumOfSquares, Square;
    if xs != [] {
      var front, x := xs[..|xs| - 1], xs[|xs| - 1];
      PositivesCarryTheSums(front);
      SquaresSplit(xs);
      SquareIsNonNegative(x);
      if x > 0.0 {
        SumOfNext(Positives(front), x);
        SquaresSplit(Positives(front) + [x]);
        assert (Positives(front) + [x])[..|Positives(front)|] == Positives(front);
      } else {
        assert Positives(xs) == Positives(front);
      }
    }
  }

  /** Cross terms of non-negative weights only help, and vanish only for a lone weight. */
  lemma {:induction false} SquaresWithinSquareOfSum(xs: seq<real>)
    requires forall i :: 0 <= i < |xs| ==> xs[i] > 0.0
    ensures xs != [] ==> Sum(xs) > 0.0 && SumOfSquares(xs) > 0.0
    ensures SumOfSquares(xs) <= Square(Sum(xs))
    ensures SumOfSquares(xs) == Square(Sum(xs)) <==> |xs| <= 1
  {
    hide SumOfSquares, Square;
    if xs != [] {
      var front, x := xs[..|xs| - 1], xs[|xs| - 1];
      SquaresWithinSquareOfSum(front);
      SquaresSplit(xs);
      SquareIsNonNegative(x);
      SquareOfTwo(Sum(front), x);
    }
    if |xs| <= 1 {
      Degenerate(xs);
    }
  }

  lemma SquareOfTwo(s: real, x: real)
    ensures Square(s + x) == Square(s) + Square(x) + 2.0 * (s * x)
    ensures s > 0.0 && x > 0.0 ==> s * x > 0.0
    ensures s == 0.0 ==> s * x == 0.0 && Square(s) == 0.0
  {
  }

  lemma Degenerate(xs: seq<real>)
    requires |xs| <= 1
    ensures SumOfSquares(xs) == Square(Sum(xs))
  {
    if xs != [] {
      SquaresSplit(xs);
      assert xs[..0] == [] && SumOfSquares([]) == 0.0;
    } else {
      assert Times(xs, xs) == [];
    }
  }

  lemma RatioOfNothing(x: real, y: real)
    requires y <= 0.0
    ensures Ratio(x, y) == 0.0
  {
  }

  lemma RatioBetween(x: real, y: real, low: real, high: real)
    requires y > 0.0 && low * y <= x <= high * y
    ensures low <= Ratio(x, y) <= high
    ensures Ratio(x, y) == low <==> x == low * y
    ensures Ratio(x, y) == high <==> x == high * y
  {
    var k := Ratio(x, y);
    assert k * y == x;
    assert k < low ==> (low - k) * y > 0.0;
    assert k > high ==> (k - high) * y > 0.0;
    assert k > low ==> (k - low) * y > 0.0;
    assert k < high ==> (high - k) * y > 0.0;
  }

  /** Of non-negative weights not all zero, it lies between one and the number of positive weights: at the top
      exactly when those are equal, at the bottom exactly when there is only one. */
  lemma KishBetween(weights: seq<real>)
    requires NonNegative(weights)
    ensures var ps := Positives(weights);
            if ps == [] then Kish(weights) == 0.0
            else
              && 1.0 <= Kish(weights) <= |ps| as real
              && (Kish(weights) == |ps| as real <==> AllEqual(ps))
              && (Kish(weights) == 1.0 <==> |ps| == 1)
  {
    var ps := Positives(weights);
    PositivesCarryTheSums(weights);
    if ps == [] {
      assert Times(ps, ps) == [];
    } else {
      KishOfPositives(ps);
    }
  }

  lemma KishOfPositives(ps: seq<real>)
    requires ps != [] && forall i :: 0 <= i < |ps| ==> ps[i] > 0.0
    ensures 1.0 <= Kish(ps) <= |ps| as real
    ensures Kish(ps) == |ps| as real <==> AllEqual(ps)
    ensures Kish(ps) == 1.0 <==> |ps| == 1
  {
    hide SumOfSquares, AllEqual, Square, Sum, Ratio;
    SquaresWithinSquareOfSum(ps);
    SquareOfSum(ps);
    RatioBetween(Square(Sum(ps)), SumOfSquares(ps), 1.0, |ps| as real);
  }

  /** For any weights at all, it reaches the sample size exactly when all are equal and not zero. */
  lemma KishIsFullIff(weights: seq<real>)
    requires weights != []
    ensures Kish(weights) <= |weights| as real
    ensures Kish(weights) == |weights| as real <==> AllEqual(weights) && weights[0] != 0.0
  {
    hide SumOfSquares, AllEqual, Sum, Square, Ratio;
    SquareOfSum(weights);
    SquaresAreNonNegative(weights);
    var q, s := SumOfSquares(weights), Sum(weights);
    if q > 0.0 {
      SquareIsNonNegative(s);
      RatioBetween(Square(s), q, 0.0, |weights| as real);
      if weights[0] == 0.0 && AllEqual(weights) {
        EqualToZero(weights);
      }
    } else {
      RatioOfNothing(Square(s), q);
    }
  }

  lemma EqualToZero(xs: seq<real>)
    requires xs != [] && xs[0] == 0.0 && AllEqual(xs)
    ensures forall i :: 0 <= i < |xs| ==> xs[i] == 0.0
  {
  }

  /** The unit the weights are measured in does not matter. */
  lemma KishIgnoresScale(weights: seq<real>, c: real)
    requires c != 0.0
    ensures Kish(Scaled(c, weights)) == Kish(weights)
  {
    hide SumOfSquares, Sum, Square, Scaled, Ratio;
    SumOfScaled(c, weights);
    SquareIsNonNegative(c);
    SquaresAreNonNegative(weights);
    ScaledRatio(Sum(weights), SumOfSquares(weights), c, Sum(Scaled(c, weights)), SumOfSquares(Scaled(c, weights)));
  }

  lemma {:induction false} SumOfScaled(c: real, xs: seq<real>)
    ensures Sum(Scaled(c, xs)) == c * Sum(xs)
    ensures SumOfSquares(Scaled(c, xs)) == Square(c) * SumOfSquares(xs)
  {
    hide SumOfSquares, Square;
    if xs != [] {
      var n := |xs| - 1;
      SumOfScaled(c, xs[..n]);
      ScaledFront(c, xs, n);
      SquaresSplit(xs);
      SquaresSplit(Scaled(c, xs));
      Distribute(c, Sum(xs[..n]), xs[n]);
      Distribute(Square(c), SumOfSquares(xs[..n]), Square(xs[n]));
      SquareOfProduct(c, xs[n], Scaled(c, xs)[n]);
    } else {
      assert Scaled(c, xs) == xs;
      assert SumOfSquares(xs) == 0.0 by {
        SquaresAreNonNegative(xs);
      }
    }
  }

  lemma ScaledFront(c: real, xs: seq<real>, n: nat)
    requires n <= |xs|
    ensures Scaled(c, xs)[..n] == Scaled(c, xs[..n])
  {
    forall i | 0 <= i < n ensures Scaled(c, xs)[..n][i] == Scaled(c, xs[..n])[i] {
      assert Scaled(c, xs)[i] == c * xs[i];
    }
  }

  lemma SquareOfProduct(c: real, x: real, y: real)
    requires y == c * x
    ensures Square(y) == Square(c) * Square(x)
  {
  }

  lemma ScaledRatio(s: real, q: real, c: real, s': real, q': real)
    requires Square(c) > 0.0 && s' == c * s && q' == Square(c) * q
    ensures Ratio(Square(s'), q') == Ratio(Square(s), q)
  {
    SquareOfProduct(c, s, s');
    hide Square;
    CancelledFactor(Square(c), Square(s), q);
  }

  lemma CancelledFactor(c: real, s: real, q: real)
    requires c > 0.0
    ensures Ratio(c * s, c * q) == Ratio(s, q)
  {
    if q > 0.0 {
      var k := s / q;
      assert k * q == s;
      assert c * q > 0.0;
      assert c * (k * q) == (c * q) * k;
      Cancel(c * q, k);
    } else {
      assert c * -q >= 0.0;
    }
  }
}
