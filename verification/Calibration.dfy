/** Brier score and expected calibration error. */
module Calibration {
  import opened Common
  import opened Sums

  datatype Bin = Bin(lower: real, upper: real, predictedMean: real, observedMean: real, count: nat)

  function Edge(b: nat, bins: nat): real
    requires bins > 0
  {
    b as real / bins as real
  }

  /** Bins are closed below and open above, but for the last, which is closed. */
  predicate InBin(p: real, b: nat, bins: nat)
    requires b < bins
  {
    Edge(b, bins) <= p && (if b == bins - 1 then p <= Edge(b + 1, bins) else p < Edge(b + 1, bins))
  }

  function Mask(predicted: seq<real>, b: nat, bins: nat): seq<bool>
    requires b < bins
  {
    seq(|predicted|, i requires 0 <= i < |predicted| => InBin(predicted[i], b, bins))
  }

  function Truth(actual: seq<bool>): seq<real> {
    seq(|actual|, i requires 0 <= i < |actual| => if actual[i] then 1.0 else 0.0)
  }

  function Errors(predicted: seq<real>, actual: seq<bool>): seq<real>
    requires |predicted| == |actual|
  {
    Less(predicted, Truth(actual))
  }

  function Brier(predicted: seq<real>, actual: seq<bool>): real
    requires |predicted| == |actual| > 0
  {
    SumOfSquares(Errors(predicted, actual)) / |predicted| as real
  }

  /** How far the errors inside each of the first `b` bins fail to cancel. */
  function Gaps(predicted: seq<real>, actual: seq<bool>, b: nat, bins: nat): real
    requires |predicted| == |actual| && b <= bins
  {
    if b == 0 then 0.0
    else Gaps(predicted, actual, b - 1, bins) + Abs(SumWhere(Errors(predicted, actual), Mask(predicted, b - 1, bins)))
  }

  function Ece(predicted: seq<real>, actual: seq<bool>, bins: nat): real
    requires |predicted| == |actual| > 0
  {
    Gaps(predicted, actual, bins, bins) / |predicted| as real
  }

  /** Which of the chosen episodes recovered. */
  function Recovered(mask: seq<bool>, actual: seq<bool>): (both: seq<bool>)
    requires |mask| == |actual|
    ensures |both| == |mask|
  {
    seq(|mask|, i requires 0 <= i < |mask| => mask[i] && actual[i])
  }

  lemma {:induction false} TruthCounts(mask: seq<bool>, actual: seq<bool>)
    requires |mask| == |actual|
    ensures SumWhere(Truth(actual), mask) == CountWhere(Recovered(mask, actual)) as real
  {
    if mask != [] {
      var n := |mask| - 1;
      TruthCounts(mask[..n], actual[..n]);
      assert Truth(actual)[..n] == Truth(actual[..n]);
      assert Recovered(mask, actual)[..n] == Recovered(mask[..n], actual[..n]);
    }
  }

  /** The Brier score is the mean of the squared distances from what happened: nought exactly when every prediction was
      certain and right. */
  lemma BrierIs(predicted: seq<real>, actual: seq<bool>)
    requires |predicted| == |actual| > 0
    ensures Brier(predicted, actual) * |predicted| as real == SumOfSquares(Errors(predicted, actual))
    ensures forall i :: 0 <= i < |predicted| ==>
              Errors(predicted, actual)[i] == predicted[i] - (if actual[i] then 1.0 else 0.0)
    ensures Brier(predicted, actual) == 0.0 <==>
            forall i :: 0 <= i < |predicted| ==> predicted[i] == if actual[i] then 1.0 else 0.0
  {
    var errors := Errors(predicted, actual);
    SquaresAreNonNegative(errors);
    hide SumOfSquares;
    var q, n := SumOfSquares(errors), |predicted| as real;
    assert q / n * n == q;
    assert forall i :: 0 <= i < |errors| ==> errors[i] == predicted[i] - (if actual[i] then 1.0 else 0.0);
  }

  /** What the reliability table says about one bin. */
  ghost predicate Describes(row: Bin, predicted: seq<real>, actual: seq<bool>, b: nat, bins: nat)
    requires |predicted| == |actual| && b < bins
  {
    var mask := Mask(predicted, b, bins);
    && row.lower == Edge(b, bins) && row.upper == Edge(b + 1, bins)
    && row.count == CountWhere(mask)
    && (if row.count > 0
        then row.predictedMean * row.count as real == SumWhere(predicted, mask)
          && row.observedMean * row.count as real == CountWhere(Recovered(mask, actual)) as real
        else row.predictedMean == (row.lower + row.upper) / 2.0 && row.observedMean == 0.0)
  }

  /** The mean of an empty list is not a number, so no episodes give no Brier score. */
  method Evaluate(predicted: seq<real>, actual: seq<bool>, bins: nat)
    returns (brier: Option<real>, ece: real, table: seq<Bin>)
    requires |predicted| == |actual|
    ensures predicted == [] ==> brier == None && ece == 0.0
    ensures predicted != [] ==> brier == Some(Brier(predicted, actual)) && ece == Ece(predicted, actual, bins)
    ensures |table| == bins
    ensures forall b :: 0 <= b < bins ==> Describes(table[b], predicted, actual, b, bins)
  {
    hide SumWhere, CountWhere, SumOfSquares, InBin, Edge, Recovered;
    var n := |predicted|;
    var truth := Truth(actual);
    brier := if n == 0 then None else Some(SumOfSquares(Less(predicted, truth)) / n as real);
    table := [];
    ece := 0.0;
    for b := 0 to bins
      invariant |table| == b
      invariant forall k :: 0 <= k < b ==> Describes(table[k], predicted, actual, k, bins)
      invariant ece == if n == 0 then 0.0 else Gaps(predicted, actual, b, bins) / n as real
    {
      var low, high := Edge(b, bins), Edge(b + 1, bins);
      var mask := Mask(predicted, b, bins);
      var count := CountWhere(mask);
      var meanPredicted, meanActual;
      if count > 0 {
        meanPredicted := SumWhere(predicted, mask) / count as real;
        meanActual := SumWhere(truth, mask) / count as real;
        var diff := Abs(meanPredicted - meanActual);
        CountIsAtMostLength(mask);
        WeightedGap(SumWhere(predicted, mask), SumWhere(truth, mask), count as real, n as real);
        SumWhereOfLess(predicted, truth, mask);
        TruthCounts(mask, actual);
        ece := ece + count as real / n as real * diff;
      } else {
        meanPredicted := (low + high) / 2.0;
        meanActual := 0.0;
        EmptyMask(mask);
        SumWhereNone(Errors(predicted, actual), mask);
      }
      if n > 0 {
        QuotientOfSum(Gaps(predicted, actual, b, bins), Abs(SumWhere(Errors(predicted, actual), mask)), n as real);
      }
      table := table + [Bin(low, high, meanPredicted, meanActual, count)];
    }
  }

  lemma EmptyMask(mask: seq<bool>)
    requires CountWhere(mask) == 0
    ensures forall i :: 0 <= i < |mask| ==> !mask[i]
  {
    forall i | 0 <= i < |mask| ensures !mask[i] {
      if mask[i] {
        CountIsPositive(mask, i);
      }
    }
  }

  lemma WeightedGap(p: real, y: real, count: real, n: real)
    requires count > 0.0 && n > 0.0
    ensures count / n * Abs(p / count - y / count) == Abs(p - y) / n
    ensures p / count * count == p && y / count * count == y
  {
    var d := p / count - y / count;
    assert d * count == p - y;
    assert Abs(d) * count == Abs(p - y);
    assert count / n * Abs(d) == (count * Abs(d)) / n;
  }

  // ---- every probability falls in one bin ------------------------------------------

  /** What the first `b` bins cover together. */
  predicate Covered(p: real, b: nat, bins: nat)
    requires b <= bins
  {
    b > 0 && 0.0 <= p && (if b == bins then p <= 1.0 else p < Edge(b, bins))
  }

  lemma EdgesIncrease(b: nat, bins: nat)
    requires b < bins
    ensures Edge(0, bins) == 0.0 && Edge(bins, bins) == 1.0
    ensures 0.0 <= Edge(b, bins) < Edge(b + 1, bins)
  {
    var w := 1.0 / bins as real;
    assert w > 0.0 && Edge(b, bins) == b as real * w && Edge(b + 1, bins) == (b + 1) as real * w;
  }

  lemma CoveredNext(p: real, b: nat, bins: nat)
    requires b < bins
    ensures Covered(p, b + 1, bins) <==> Covered(p, b, bins) || InBin(p, b, bins)
    ensures !(Covered(p, b, bins) && InBin(p, b, bins))
  {
    hide Edge;
    EdgesIncrease(b, bins);
  }

  lemma {:induction false} CoveredMeans(p: real, b: nat, bins: nat)
    requires b <= bins
    ensures Covered(p, b, bins) <==> exists k :: 0 <= k < b && InBin(p, k, bins)
  {
    if b > 0 {
      CoveredMeans(p, b - 1, bins);
      CoveredNext(p, b - 1, bins);
    }
  }

  /** A prediction is in some bin exactly when it is a probability, and never in two. */
  lemma ExactlyOneBin(p: real, bins: nat)
    requires bins > 0
    ensures 0.0 <= p <= 1.0 <==> exists b :: 0 <= b < bins && InBin(p, b, bins)
    ensures forall b, c :: 0 <= b < c < bins ==> !(InBin(p, b, bins) && InBin(p, c, bins))
  {
    CoveredMeans(p, bins, bins);
    forall b, c | 0 <= b < c < bins ensures !(InBin(p, b, bins) && InBin(p, c, bins)) {
      CoveredMeans(p, c, bins);
      CoveredNext(p, c, bins);
    }
  }

  /** The bin of a prediction below one is the whole part of so many times the prediction; one itself is in the last. */
  lemma BinIsFloor(p: real, b: nat, bins: nat)
    requires b < bins
    ensures InBin(p, b, bins) <==> 0.0 <= p <= 1.0 && b == if p == 1.0 then bins - 1 else Mul(p, bins as real).Floor
  {
    hide Edge;
    EdgesIncrease(b, bins);
    EdgeTimes(b, bins);
    EdgeTimes(b + 1, bins);
    var w := bins as real;
    AtMost(Edge(b, bins), p, w);
    AtMost(Edge(b + 1, bins), p, w);
    AtMost(0.0, p, w);
    AtMost(1.0, p, w);
    FloorIs(Mul(p, w), b, bins);
    hide Mul;
  }

  /** Between two whole numbers lies the floor. */
  lemma FloorIs(x: real, b: nat, bins: nat)
    requires b < bins
    ensures x < bins as real && x >= 0.0 ==> (b as real <= x < (b + 1) as real <==> b == x.Floor)
    ensures x >= 0.0 ==> x.Floor >= 0
  {
  }

  lemma EdgeTimes(b: nat, bins: nat)
    requires bins > 0
    ensures Mul(Edge(b, bins), bins as real) == b as real
  {
  }

  lemma AtMost(x: real, y: real, w: real)
    requires w > 0.0
    ensures x <= y <==> Mul(x, w) <= Mul(y, w)
    ensures x == y <==> Mul(x, w) == Mul(y, w)
    ensures Mul(0.0, w) == 0.0 && Mul(1.0, w) == w
  {
    if x < y {
      assert (y - x) * w > 0.0;
    } else if y < x {
      assert (x - y) * w > 0.0;
    }
  }

  function CoveredMask(predicted: seq<real>, b: nat, bins: nat): seq<bool>
    requires b <= bins
  {
    seq(|predicted|, i requires 0 <= i < |predicted| => Covered(predicted[i], b, bins))
  }

  lemma MasksAddUp(predicted: seq<real>, b: nat, bins: nat, xs: seq<real>)
    requires b < bins && |xs| == |predicted|
    ensures SumWhere(xs, CoveredMask(predicted, b + 1, bins))
         == SumWhere(xs, CoveredMask(predicted, b, bins)) + SumWhere(xs, Mask(predicted, b, bins))
    ensures CountWhere(CoveredMask(predicted, b + 1, bins))
         == CountWhere(CoveredMask(predicted, b, bins)) + CountWhere(Mask(predicted, b, bins))
  {
    hide InBin, Covered;
    forall i | 0 <= i < |predicted|
      ensures Covered(predicted[i], b + 1, bins) <==> Covered(predicted[i], b, bins) || InBin(predicted[i], b, bins)
      ensures !(Covered(predicted[i], b, bins) && InBin(predicted[i], b, bins))
    {
      CoveredNext(predicted[i], b, bins);
    }
    SumWhereEither(xs, CoveredMask(predicted, b, bins), Mask(predicted, b, bins), CoveredMask(predicted, b + 1, bins));
  }

  function Counts(predicted: seq<real>, b: nat, bins: nat): nat
    requires b <= bins
  {
    if b == 0 then 0 else Counts(predicted, b - 1, bins) + CountWhere(Mask(predicted, b - 1, bins))
  }

  lemma {:induction false} CountsCover(predicted: seq<real>, b: nat, bins: nat)
    requires b <= bins
    ensures Counts(predicted, b, bins) == CountWhere(CoveredMask(predicted, b, bins))
  {
    if b > 0 {
      CountsCover(predicted, b - 1, bins);
      MasksAddUp(predicted, b - 1, bins, predicted);
    } else {
      SumWhereNone(predicted, CoveredMask(predicted, 0, bins));
    }
  }

  /** The bins account for every episode exactly when every prediction is a probability; a prediction outside
      `[0, 1]` enters the Brier score and no bin. */
  lemma CountsSumToTotal(predicted: seq<real>, bins: nat)
    requires bins > 0
    ensures Counts(predicted, bins, bins) <= |predicted|
    ensures Counts(predicted, bins, bins) == |predicted| <==>
            forall i :: 0 <= i < |predicted| ==> 0.0 <= predicted[i] <= 1.0
  {
    var covered := CoveredMask(predicted, bins, bins);
    CountsCover(predicted, bins, bins);
    CountIsAtMostLength(covered);
    assert forall i :: 0 <= i < |predicted| ==> (covered[i] <==> 0.0 <= predicted[i] <= 1.0);
  }

  // ---- calibration error against the Brier score -------------------------------------

  /** Inside a bin errors cancel, and no error is counted twice. */
  lemma {:induction false} GapsWithinErrors(predicted: seq<real>, actual: seq<bool>, b: nat, bins: nat)
    requires |predicted| == |actual| && b <= bins
    ensures 0.0 <= Gaps(predicted, actual, b, bins) <=
            SumWhere(Magnitudes(Errors(predicted, actual)), CoveredMask(predicted, b, bins))
  {
    hide SumWhere, CountWhere, InBin, Truth;
    var errors := Errors(predicted, actual);
    if b > 0 {
      GapsWithinErrors(predicted, actual, b - 1, bins);
      TriangleWhere(errors, Mask(predicted, b - 1, bins));
      MasksAddUp(predicted, b - 1, bins, Magnitudes(errors));
    } else {
      SumWhereNone(Magnitudes(errors), CoveredMask(predicted, 0, bins));
    }
  }

  /** No bin is left out: the error is nought exactly when the errors of every bin cancel. */
  lemma EceIsNoughtIff(predicted: seq<real>, actual: seq<bool>, bins: nat)
    requires |predicted| == |actual| > 0
    ensures Ece(predicted, actual, bins) == 0.0 <==>
            forall b :: 0 <= b < bins ==> SumWhere(Errors(predicted, actual), Mask(predicted, b, bins)) == 0.0
  {
    hide SumWhere, Errors, Mask;
    GapsAreNoughtIff(predicted, actual, bins, bins);
    var g, n := Gaps(predicted, actual, bins, bins), |predicted| as real;
    assert g / n * n == g;
  }

  lemma {:induction false} GapsAreNoughtIff(predicted: seq<real>, actual: seq<bool>, b: nat, bins: nat)
    requires |predicted| == |actual| && b <= bins
    ensures Gaps(predicted, actual, b, bins) >= 0.0
    ensures Gaps(predicted, actual, b, bins) == 0.0 <==>
            forall k :: 0 <= k < b ==> SumWhere(Errors(predicted, actual), Mask(predicted, k, bins)) == 0.0
  {
    if b > 0 {
      hide SumWhere, Errors, Mask;
      GapsAreNoughtIff(predicted, actual, b - 1, bins);
    }
  }

  /** Nor does it fall below what the predictions are off by on the whole, if they are probabilities; with one bin that
      is all of it. */
  lemma EceIsAtLeastBias(predicted: seq<real>, actual: seq<bool>, bins: nat)
    requires |predicted| == |actual| > 0 && bins > 0
    requires forall i :: 0 <= i < |predicted| ==> 0.0 <= predicted[i] <= 1.0
    ensures Ece(predicted, actual, bins) >= Abs(Mean(Errors(predicted, actual)))
    ensures bins == 1 ==> Ece(predicted, actual, bins) == Abs(Mean(Errors(predicted, actual)))
  {
    hide SumWhere, InBin, Truth, Sum;
    var errors := Errors(predicted, actual);
    var covered := CoveredMask(predicted, bins, bins);
    GapsAreAtLeast(predicted, actual, bins, bins);
    SumWhereAll(errors, covered);
    AbsOfQuotient(Sum(errors), |predicted| as real);
    var n := |predicted| as real;
    QuotientGrows(Abs(Sum(errors)), Gaps(predicted, actual, bins, bins), n);
    if bins == 1 {
      SameMask(predicted);
      assert Gaps(predicted, actual, 1, 1) ==
             Gaps(predicted, actual, 0, 1) + Abs(SumWhere(errors, Mask(predicted, 0, 1)));
    }
  }

  lemma SameMask(predicted: seq<real>)
    requires forall i :: 0 <= i < |predicted| ==> 0.0 <= predicted[i] <= 1.0
    ensures Mask(predicted, 0, 1) == CoveredMask(predicted, 1, 1)
  {
    EdgesIncrease(0, 1);
  }

  lemma {:induction false} GapsAreAtLeast(predicted: seq<real>, actual: seq<bool>, b: nat, bins: nat)
    requires |predicted| == |actual| && b <= bins
    ensures Gaps(predicted, actual, b, bins) >=
            Abs(SumWhere(Errors(predicted, actual), CoveredMask(predicted, b, bins)))
  {
    hide SumWhere, CountWhere, InBin, Truth;
    var errors := Errors(predicted, actual);
    if b > 0 {
      GapsAreAtLeast(predicted, actual, b - 1, bins);
      MasksAddUp(predicted, b - 1, bins, errors);
    } else {
      SumWhereNone(errors, CoveredMask(predicted, 0, bins));
    }
  }

  lemma AbsOfQuotient(x: real, n: real)
    requires n > 0.0
    ensures Abs(x / n) == Abs(x) / n
  {
    var q := x / n;
    assert q * n == x;
    if x < 0.0 {
      assert q < 0.0;
    }
  }

  lemma QuotientGrows(x: real, y: real, n: real)
    requires n > 0.0 && x <= y
    ensures x / n <= y / n
  {
  }

  /** The squared expected calibration error never exceeds the Brier score, whatever the predictions. */
  lemma EceSquaredIsAtMostBrier(predicted: seq<real>, actual: seq<bool>, bins: nat)
    requires |predicted| == |actual| > 0
    ensures 0.0 <= Ece(predicted, actual, bins)
    ensures Square(Ece(predicted, actual, bins)) <= Brier(predicted, actual)
  {
    hide SumWhere, SumOfSquares, Sum, Gaps, Square;
    var errors := Errors(predicted, actual);
    var sizes := Magnitudes(errors);
    GapsWithinErrors(predicted, actual, bins, bins);
    TriangleWhere(errors, CoveredMask(predicted, bins, bins));
    SquareOfSum(sizes);
    SquaresOfMagnitudes(errors);
    SquareOfMean(Gaps(predicted, actual, bins, bins), Sum(sizes), SumOfSquares(errors), |predicted| as real);
  }

  lemma SquaresOfMagnitudes(xs: seq<real>)
    ensures SumOfSquares(Magnitudes(xs)) == SumOfSquares(xs)
  {
    assert Times(Magnitudes(xs), Magnitudes(xs)) == Times(xs, xs) by {
      forall i | 0 <= i < |xs| ensures Times(Magnitudes(xs), Magnitudes(xs))[i] == Times(xs, xs)[i] {
        assert Abs(xs[i]) * Abs(xs[i]) == xs[i] * xs[i];
      }
    }
  }

  lemma SquareOfMean(gap: real, total: real, squares: real, n: real)
    requires n > 0.0 && 0.0 <= gap <= total && Square(total) <= n * squares
    ensures 0.0 <= gap / n
    ensures Square(gap / n) <= squares / n
  {
    var g := gap / n;
    assert g * n == gap;
    assert gap * gap <= total * total;
    assert (g * n) * (g * n) == g * g * n * n;
    assert g * g * n * n <= n * squares;
    CancelFactor(g * g * n, squares, n);
    var q := squares / n;
    assert q * n == squares;
    CancelFactor(g * g, q, n);
  }

  lemma CancelFactor(x: real, y: real, n: real)
    requires n > 0.0 && x * n <= y * n
    ensures x <= y
  {
    assert x > y ==> (x - y) * n > 0.0;
  }
}
