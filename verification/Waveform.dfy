/** Reading a series of analysis frames onto a fixed number of points (src/samplecore/waveform.py): by linear
    interpolation, and by triangular averages. Values and positions are real numbers. */
module Waveform {
  import opened RealArithmetic

  function Distance(a: real, b: real): real {
    if a >= b then a - b else b - a
  }

  /** The i-th of `count` positions spread evenly over the unit interval, the first of one alone being 0. */
  function Position(count: nat, i: nat): real {
    if count <= 1 then 0.0 else i as real / (count - 1) as real
  }

  // ------------------------------------------------------------------ interpolation

  /** The last of the first k + 1 positions not past `t`. */
  function SegmentOf(count: nat, t: real, k: nat): (s: nat)
    ensures s <= k
  {
    if k == 0 || Position(count, k) <= t then k else SegmentOf(count, t, k - 1)
  }

  /** The piecewise linear series through the frames, read at `t`. */
  function Interpolated(values: seq<real>, t: real): real
    requires values != []
  {
    var n := |values|;
    var k := SegmentOf(n, t, n - 1);
    if k == n - 1 then values[k]
    else
      var x0, x1 := Position(n, k), Position(n, k + 1);
      if x1 == x0 then values[k] else (values[k + 1] - values[k]) / (x1 - x0) * (t - x0) + values[k]
  }

  function ResampleToFractionPoints(values: seq<real>, pointCount: nat): seq<real>
    requires values != []
  {
    seq(pointCount, j requires 0 <= j < pointCount => Interpolated(values, Position(pointCount, j)))
  }

  // ------------------------------------------------------------------ triangular averages

  function TriangularWeight(source: real, target: real, halfWidth: real): real
    requires halfWidth > 0.0
  {
    Larger(1.0 - Distance(source, target) / halfWidth, 0.0)
  }

  /** The weights of `count` evenly spread sources for one target, before they are normalized. */
  function Weights(count: nat, target: real, halfWidth: real): (weights: seq<real>)
    requires halfWidth > 0.0
    ensures |weights| == count
  {
    seq(count, i requires 0 <= i < count => TriangularWeight(Position(count, i), target, halfWidth))
  }

  function Normalized(weights: seq<real>): (normalized: seq<real>)
    requires SumOf(weights) != 0.0
    ensures |normalized| == |weights|
  {
    seq(|weights|, i requires 0 <= i < |weights| => weights[i] / SumOf(weights))
  }

  function WeightedSum(weights: seq<real>, values: seq<real>): real
    requires |weights| == |values|
  {
    if weights == [] then 0.0
    else WeightedSum(weights[..|weights| - 1], values[..|values| - 1]) + weights[|weights| - 1] * values[|values| - 1]
  }

  function Spacing(count: nat): real {
    if count <= 2 then 1.0 else 1.0 / (count - 1) as real
  }

  function HalfWidth(frameCount: nat, pointCount: nat): (h: real)
    ensures h > 0.0
  {
    Larger(Spacing(pointCount), Spacing(frameCount))
  }

  function AveragedAt(values: seq<real>, pointCount: nat, j: nat): real
    requires |values| >= 2 && j < pointCount
    requires SumOf(Weights(|values|, Position(pointCount, j), HalfWidth(|values|, pointCount))) != 0.0
  {
    WeightedSum(Normalized(Weights(|values|, Position(pointCount, j), HalfWidth(|values|, pointCount))), values)
  }

  function AverageToFractionPoints(values: seq<real>, pointCount: nat): (points: seq<real>)
    requires values != []
    ensures |points| == pointCount
  {
    if |values| == 1 then seq(pointCount, j => values[0])
    else
      seq(pointCount, j requires 0 <= j < pointCount =>
        RowsCanBeNormalized(|values|, pointCount, j);
        AveragedAt(values, pointCount, j))
  }

  // ------------------------------------------------------------------ every row is an average

  lemma PositionsAreFractions(count: nat, i: nat)
    requires i < count
    ensures 0.0 <= Position(count, i) <= 1.0
    ensures count >= 2 ==> Position(count, i) * (count - 1) as real == i as real
  {
    if count >= 2 {
      var n, x := (count - 1) as real, i as real / (count - 1) as real;
      assert x * n == i as real;
      assert x > 1.0 ==> x * n > n;
      assert x < 0.0 ==> x * n < 0.0;
    }
  }

  lemma SpacingIsPositive(count: nat)
    ensures Spacing(count) > 0.0
  {
  }

  lemma SpacingIsTheStep(count: nat)
    requires count >= 2
    ensures Spacing(count) * (count - 1) as real == 1.0
  {
  }

  lemma {:induction false} SumsOfNonnegatives(weights: seq<real>, k: nat)
    requires forall i :: 0 <= i < |weights| ==> weights[i] >= 0.0
    ensures SumOf(weights) >= 0.0 && (k < |weights| ==> SumOf(weights) >= weights[k])
  {
    if weights != [] {
      SumsOfNonnegatives(weights[..|weights| - 1], k);
    }
  }

  lemma WeightsAreNonnegative(count: nat, target: real, halfWidth: real)
    requires halfWidth > 0.0
    ensures forall i :: 0 <= i < count ==> Weights(count, target, halfWidth)[i] >= 0.0
  {
  }

  // The source just before a target is nearer to it than the sources are apart.
  lemma ASourceIsNear(count: nat, t: real) returns (k: nat)
    requires count >= 2 && 0.0 <= t <= 1.0
    ensures k < count && Position(count, k) <= t
    ensures k == count - 1 ==> Position(count, k) == t
    ensures k < count - 1 ==> t < Position(count, k + 1)
    ensures k == SegmentOf(count, t, count - 1)
  {
    k := SegmentOf(count, t, count - 1);
    SegmentsContain(count, t, count - 1);
    PositionsAreFractions(count, count - 1);
    SameQuotient(Position(count, count - 1), 1.0, (count - 1) as real);
  }

  lemma {:induction false} SegmentsContain(count: nat, t: real, k: nat)
    requires t >= 0.0
    ensures Position(count, SegmentOf(count, t, k)) <= t
    ensures SegmentOf(count, t, k) < k ==> t < Position(count, SegmentOf(count, t, k) + 1)
  {
    if k > 0 && Position(count, k) > t {
      SegmentsContain(count, t, k - 1);
    }
  }

  lemma SpacingsShrink(few: nat, many: nat)
    requires few <= many
    ensures Spacing(many) <= Spacing(few)
    ensures few >= 2 && few < many ==> Spacing(many) < Spacing(few)
  {
    if many > 2 {
      var n := (many - 1) as real;
      assert Spacing(many) * n == 1.0;
      if few > 2 {
        var k := (few - 1) as real;
        assert Spacing(few) * k == 1.0;
        QuotientsShrink(k, n);
      }
    }
  }

  lemma QuotientsShrink(k: real, n: real)
    requires 0.0 < k <= n
    ensures 1.0 / n <= 1.0 / k && (k < n ==> 1.0 / n < 1.0 / k)
  {
    var a, b := 1.0 / k, 1.0 / n;
    assert a * k == 1.0 && b * n == 1.0 && a > 0.0;
    assert a * (n - k) >= 0.0 && (k < n ==> a * (n - k) > 0.0);
    assert (b - a) * n == -(a * (n - k));
    SignOfAProduct(b - a, n);
    SignOfAProduct(a - b, n);
  }

  lemma NearSourcesWeigh(source: real, target: real, halfWidth: real)
    requires halfWidth > 0.0 && Distance(source, target) < halfWidth
    ensures TriangularWeight(source, target, halfWidth) > 0.0
  {
    var q := Distance(source, target) / halfWidth;
    assert q * halfWidth == Distance(source, target);
    assert (q - 1.0) * halfWidth == Distance(source, target) - halfWidth;
    SignOfAProduct(q - 1.0, halfWidth);
  }

  lemma StepsBetweenPositions(count: nat, k: nat)
    requires k + 1 < count
    ensures Position(count, k + 1) - Position(count, k) == Spacing(count)
  {
    PositionsAreFractions(count, k);
    PositionsAreFractions(count, k + 1);
    SpacingIsTheStep(count);
    var n := (count - 1) as real;
    SameQuotient(Position(count, k + 1) - Position(count, k), Spacing(count), n);
  }

  /** Every target draws on some source, so its weights can be normalized. */
  lemma RowsCanBeNormalized(frameCount: nat, pointCount: nat, j: nat)
    requires frameCount >= 2 && j < pointCount
    ensures SumOf(Weights(frameCount, Position(pointCount, j), HalfWidth(frameCount, pointCount))) > 0.0
  {
    var t, h := Position(pointCount, j), HalfWidth(frameCount, pointCount);
    PositionsAreFractions(pointCount, j);
    var k := ASourceIsNear(frameCount, t);
    if k < frameCount - 1 {
      StepsBetweenPositions(frameCount, k);
    }
    NearSourcesWeigh(Position(frameCount, k), t, h);
    WeightsAreNonnegative(frameCount, t, h);
    SumsOfNonnegatives(Weights(frameCount, t, h), k);
  }

  lemma {:induction false} SumOfQuotients(weights: seq<real>, c: real, quotients: seq<real>)
    requires c > 0.0 && |weights| == |quotients| && forall i :: 0 <= i < |weights| ==> quotients[i] == weights[i] / c
    ensures SumOf(quotients) == SumOf(weights) / c
  {
    if weights != [] {
      var last := |weights| - 1;
      SumOfQuotients(weights[..last], c, quotients[..last]);
      assert SumOf(weights[..last]) / c + weights[last] / c == (SumOf(weights[..last]) + weights[last]) / c;
    }
  }

  lemma {:induction false} AveragesStayWithin(weights: seq<real>, values: seq<real>, low: real, high: real)
    requires |weights| == |values|
    requires forall i :: 0 <= i < |weights| ==> weights[i] >= 0.0 && low <= values[i] <= high
    ensures Between(low, high, SumOf(weights), WeightedSum(weights, values))
  {
    if weights != [] {
      var last := |weights| - 1;
      var w, v, sum, weighed := weights[last], values[last], SumOf(weights[..last]),
        WeightedSum(weights[..last], values[..last]);
      assert Between(low, high, sum, weighed) by { AveragesStayWithin(weights[..last], values[..last], low, high); }
      assert SumOf(weights) == sum + w && WeightedSum(weights, values) == weighed + w * v;
      assert w >= 0.0 && low <= v <= high;
      hide *;
      BetweenTakesOneMore(low, high, sum, weighed, w, v);
    }
  }

  lemma NormalizedRowsAreAverages(raw: seq<real>)
    requires SumOf(raw) > 0.0 && forall i :: 0 <= i < |raw| ==> raw[i] >= 0.0
    ensures SumOf(Normalized(raw)) == 1.0
    ensures forall i :: 0 <= i < |raw| ==> Normalized(raw)[i] >= 0.0 && (raw[i] > 0.0 ==> Normalized(raw)[i] > 0.0)
  {
    SumOfQuotients(raw, SumOf(raw), Normalized(raw));
    QuotientSign(SumOf(raw), SumOf(raw));
    forall i | 0 <= i < |raw|
      ensures Normalized(raw)[i] >= 0.0 && (raw[i] > 0.0 ==> Normalized(raw)[i] > 0.0)
    {
      assert Normalized(raw)[i] == raw[i] / SumOf(raw);
      hide *;
      QuotientSign(raw[i], SumOf(raw));
    }
  }

  lemma QuotientSign(x: real, c: real)
    requires c > 0.0
    ensures x >= 0.0 ==> x / c >= 0.0
    ensures x > 0.0 ==> x / c > 0.0
    ensures x == c ==> x / c == 1.0
  {
    var q := x / c;
    assert q * c == x;
    SignOfAProduct(q, c);
    SignOfAProduct(-q, c);
    if x == c {
      SignOfAProduct(q - 1.0, c);
      SignOfAProduct(1.0 - q, c);
    }
  }

  /** Whatever the two resolutions, each row of normalized weights is nonnegative and sums to one, so every point
      lies between the least and the greatest of the frames. */
  lemma EveryPointIsAnAverage(values: seq<real>, pointCount: nat, j: nat, low: real, high: real)
    requires values != [] && j < pointCount && forall i :: 0 <= i < |values| ==> low <= values[i] <= high
    ensures low <= AverageToFractionPoints(values, pointCount)[j] <= high
    ensures |values| >= 2 ==>
      var raw := Weights(|values|, Position(pointCount, j), HalfWidth(|values|, pointCount));
      && SumOf(raw) > 0.0 && SumOf(Normalized(raw)) == 1.0 && forall i :: 0 <= i < |values| ==>
        Normalized(raw)[i] >= 0.0
  {
    if |values| >= 2 {
      var t, h := Position(pointCount, j), HalfWidth(|values|, pointCount);
      var raw := Weights(|values|, t, h);
      RowsCanBeNormalized(|values|, pointCount, j);
      WeightsAreNonnegative(|values|, t, h);
      NormalizedRowsAreAverages(raw);
      assert AverageToFractionPoints(values, pointCount)[j] == WeightedSum(Normalized(raw), values);
      hide *;
      AveragesStayWithin(Normalized(raw), values, low, high);
    }
  }

  // ------------------------------------------------------------------ where averaging is interpolation

  lemma {:induction false} NothingWeighs(weights: seq<real>, values: seq<real>)
    requires |weights| == |values| && forall i :: 0 <= i < |weights| ==> weights[i] == 0.0
    ensures SumOf(weights) == 0.0 && WeightedSum(weights, values) == 0.0
  {
    if weights != [] {
      NothingWeighs(weights[..|weights| - 1], values[..|values| - 1]);
    }
  }

  lemma NothingTimes(weight: real, value: real)
    requires weight == 0.0
    ensures weight * value == 0.0
  {
  }

  lemma {:induction false} TwoNeighborsWeigh(weights: seq<real>, values: seq<real>, k: nat)
    requires |weights| == |values| && k < |weights|
    requires forall i :: 0 <= i < |weights| && i != k && i != k + 1 ==> weights[i] == 0.0
    ensures SumOf(weights) == weights[k] + if k + 1 < |weights| then weights[k + 1] else 0.0
    ensures WeightedSum(weights, values) == weights[k] * values[k] + if k + 1 < |weights|
      then weights[k + 1] * values[k + 1] else 0.0
  {
    var last := |weights| - 1;
    var weighed := weights[last] * values[last];
    assert SumOf(weights) == SumOf(weights[..last]) + weights[last];
    assert WeightedSum(weights, values) == WeightedSum(weights[..last], values[..last]) + weighed;
    hide SumOf, WeightedSum;
    if k == last {
      NothingWeighs(weights[..last], values[..last]);
    } else {
      TwoNeighborsWeigh(weights[..last], values[..last], k);
      if last > k + 1 {
        NothingTimes(weights[last], values[last]);
      }
    }
  }

  // In units of the source spacing, a target at p weighs a source by how far short of one its distance falls.
  lemma WeightInSteps(count: nat, t: real, i: nat, p: real)
    requires count >= 2 && i < count && p == t * (count - 1) as real
    ensures TriangularWeight(Position(count, i), t, Spacing(count)) == Larger(1.0 - Distance(i as real, p), 0.0)
  {
    PositionsAreFractions(count, i);
    SpacingIsTheStep(count);
    SpacingIsPositive(count);
    var n, x := (count - 1) as real, Position(count, i);
    hide *;
    DistanceInSteps(x, t, n);
    DistanceOverAStep(Distance(x, t), Spacing(count), n);
    assert TriangularWeight(x, t, Spacing(count)) == Larger(1.0 - Distance(x, t) / Spacing(count), 0.0) by {
      WeightOf(x, t, Spacing(count));
    }
  }

  lemma WeightOf(source: real, target: real, halfWidth: real)
    requires halfWidth > 0.0
    ensures TriangularWeight(source, target, halfWidth) == Larger(1.0 - Distance(source, target) / halfWidth, 0.0)
  {
  }

  lemma DistanceOverAStep(d: real, step: real, n: real)
    requires step > 0.0 && step * n == 1.0
    ensures d / step == d * n
  {
    assert (d / step) * step == d;
    assert (d * n) * step == d * (step * n);
    SameQuotient(d / step, d * n, step);
  }

  lemma DistanceInSteps(x: real, t: real, n: real)
    requires n > 0.0
    ensures Distance(x, t) * n == Distance(x * n, t * n)
  {
    assert (x - t) * n == x * n - t * n;
    SignOfAProduct(x - t, n);
  }

  lemma SameQuotient(a: real, b: real, c: real)
    requires c > 0.0 && a * c == b * c
    ensures a == b
  {
    assert (a - b) * c == 0.0;
    SignOfAProduct(a - b, c);
    SignOfAProduct(b - a, c);
  }

  lemma TargetInSteps(count: nat, t: real, k: nat)
    requires count >= 2 && 0.0 <= t <= 1.0 && k < count && Position(count, k) <= t
    requires k == count - 1 ==> Position(count, k) == t
    requires k < count - 1 ==> t < Position(count, k + 1)
    ensures var p := t * (count - 1) as real;
      k as real <= p && p < (k + 1) as real && (k == count - 1 ==> p == k as real)
  {
    var n := (count - 1) as real;
    PositionsAreFractions(count, k);
    SignOfAProduct(t - Position(count, k), n);
    assert (t - Position(count, k)) * n == t * n - k as real;
    if k < count - 1 {
      PositionsAreFractions(count, k + 1);
      SignOfAProduct(t - Position(count, k + 1), n);
      assert (t - Position(count, k + 1)) * n == t * n - (k + 1) as real;
    }
  }

  lemma WeightsInSteps(count: nat, t: real, k: nat)
    requires count >= 2 && k < count
    requires var p := t * (count - 1) as real; k as real <= p < (k + 1) as real
    ensures var p, weights := t * (count - 1) as real, Weights(count, t, Spacing(count));
      forall i :: 0 <= i < count ==> weights[i] == if i == k then 1.0 - (p - k as real)
        else if i == k + 1 then p - k as real else 0.0
  {
    var p, weights := t * (count - 1) as real, Weights(count, t, Spacing(count));
    forall i | 0 <= i < count
      ensures weights[i] == if i == k then 1.0 - (p - k as real) else if i == k + 1 then p - k as real else 0.0
    {
      assert weights[i] == TriangularWeight(Position(count, i), t, Spacing(count));
      WeightInSteps(count, t, i, p);
      hide Weights, TriangularWeight, Position, Spacing;
    }
  }

  lemma InterpolatedInSteps(values: seq<real>, t: real, k: nat)
    requires |values| >= 2 && k < |values| && k == SegmentOf(|values|, t, |values| - 1)
    ensures k == |values| - 1 ==> Interpolated(values, t) == values[k]
    ensures k < |values| - 1 ==>
      Interpolated(values, t) == (values[k + 1] - values[k]) * (t * (|values| - 1) as real - k as real) + values[k]
  {
    if k < |values| - 1 {
      RiseOverTheStep(|values|, t, k, values[k], values[k + 1]);
    }
  }

  /** At the source spacing, the weighted sum is the interpolation, its weights summing to one already. */
  lemma WeighingIsInterpolating(values: seq<real>, t: real)
    requires |values| >= 2 && 0.0 <= t <= 1.0
    ensures SumOf(Weights(|values|, t, Spacing(|values|))) == 1.0
    ensures WeightedSum(Weights(|values|, t, Spacing(|values|)), values) == Interpolated(values, t)
  {
    hide *;
    var count := |values|;
    var k := ASourceIsNear(count, t);
    TargetInSteps(count, t, k);
    SpacingIsPositive(count);
    WeightsInSteps(count, t, k);
    InterpolatedInSteps(values, t, k);
    TwoNeighborsWeigh(Weights(count, t, Spacing(count)), values, k);
    if k < count - 1 {
      WeightsOfTwo(t * (count - 1) as real - k as real, values[k], values[k + 1]);
    }
  }

  lemma WeightsOfTwo(f: real, a: real, b: real)
    ensures (1.0 - f) * a + f * b == (b - a) * f + a
  {
  }

  lemma RiseOverTheStep(count: nat, t: real, k: nat, a: real, b: real)
    requires k + 1 < count
    ensures Position(count, k + 1) != Position(count, k)
    ensures (b - a) / (Position(count, k + 1) - Position(count, k)) * (t - Position(count, k)) + a
         == (b - a) * (t * (count - 1) as real - k as real) + a
  {
    StepsBetweenPositions(count, k);
    SpacingIsTheStep(count);
    PositionsAreFractions(count, k);
    var n, step, d := (count - 1) as real, Spacing(count), t - Position(count, k);
    assert d * n == t * n - k as real;
    QuotientByAStep(b - a, step, n, d);
  }

  lemma QuotientByAStep(rise: real, step: real, n: real, d: real)
    requires step > 0.0 && step * n == 1.0
    ensures rise / step * d == rise * (d * n)
  {
    assert (rise / step) * step == rise && (rise * n) * step == rise;
    SameQuotient(rise / step, rise * n, step);
    assert rise * n * d == rise * (d * n);
  }

  lemma {:induction false} DividingByOne(weights: seq<real>)
    requires SumOf(weights) == 1.0
    ensures Normalized(weights) == weights
  {
    forall i | 0 <= i < |weights|
      ensures weights[i] / 1.0 == weights[i]
    {
    }
  }

  lemma AveragedPointsAreInterpolated(values: seq<real>, pointCount: nat, j: nat)
    requires |values| >= 2 && j < pointCount && Spacing(pointCount) <= Spacing(|values|)
    ensures AverageToFractionPoints(values, pointCount)[j] == Interpolated(values, Position(pointCount, j))
  {
    var t := Position(pointCount, j);
    PositionsAreFractions(pointCount, j);
    WeighingIsInterpolating(values, t);
    DividingByOne(Weights(|values|, t, Spacing(|values|)));
    assert HalfWidth(|values|, pointCount) == Spacing(|values|);
  }

  // A series that rises after its first frame.
  function Risen(frameCount: nat): (values: seq<real>)
    ensures |values| == frameCount
  {
    seq(frameCount, i => if i == 0 then 0.0 else 1.0)
  }

  lemma {:induction false} SumsOfTheRisen(weights: seq<real>, k: nat)
    requires forall i :: 0 <= i < |weights| ==> weights[i] >= 0.0
    requires 0 < k < |weights| && weights[k] > 0.0
    ensures WeightedSum(weights, Risen(|weights|)) > 0.0
  {
    var last := |weights| - 1;
    assert Risen(|weights|)[..last] == Risen(last);
    if k < last {
      SumsOfTheRisen(weights[..last], k);
    } else {
      RisenSumsAreNonnegative(weights[..last]);
    }
  }

  lemma {:induction false} RisenSumsAreNonnegative(weights: seq<real>)
    requires forall i :: 0 <= i < |weights| ==> weights[i] >= 0.0
    ensures WeightedSum(weights, Risen(|weights|)) >= 0.0
  {
    if weights != [] {
      var last := |weights| - 1;
      assert Risen(|weights|)[..last] == Risen(last);
      RisenSumsAreNonnegative(weights[..last]);
    }
  }

  // Where a target reaches past its neighbor, the first point is not the first frame.
  lemma WideAveragesDiffer(frameCount: nat, pointCount: nat)
    requires frameCount >= 2 && pointCount > 0 && Spacing(pointCount) > Spacing(frameCount)
    ensures AverageToFractionPoints(Risen(frameCount), pointCount)[0] > 0.0
    ensures Interpolated(Risen(frameCount), Position(pointCount, 0)) == 0.0
  {
    var values, h := Risen(frameCount), HalfWidth(frameCount, pointCount);
    var t := Position(pointCount, 0);
    assert t == 0.0;
    PositionsAreFractions(frameCount, 0);
    StepsBetweenPositions(frameCount, 0);
    assert Position(frameCount, 0) == 0.0;
    NearSourcesWeigh(Position(frameCount, 1), t, h);
    RowsCanBeNormalized(frameCount, pointCount, 0);
    WeightsAreNonnegative(frameCount, t, h);
    var raw := Weights(frameCount, t, h);
    NormalizedRowsAreAverages(raw);
    assert raw[1] > 0.0;
    assert AverageToFractionPoints(values, pointCount)[0] == WeightedSum(Normalized(raw), values);
    TheRisenStartAtZero(frameCount);
    hide *;
    SumsOfTheRisen(Normalized(raw), 1);
  }

  lemma TheRisenStartAtZero(frameCount: nat)
    requires frameCount >= 2
    ensures Interpolated(Risen(frameCount), 0.0) == 0.0
  {
    var k := ASourceIsNear(frameCount, 0.0);
    PositionsAreFractions(frameCount, k);
    assert k == 0;
    StepsBetweenPositions(frameCount, 0);
  }

  /** Averaging onto some number of points is linear interpolation for every series of that many frames, exactly
      when the points stand no further apart than the frames. */
  lemma AveragingIsInterpolatingExactly(frameCount: nat, pointCount: nat)
    requires frameCount > 0
    ensures (forall values :: |values| == frameCount ==>
               AverageToFractionPoints(values, pointCount) == ResampleToFractionPoints(values, pointCount))
       <==> pointCount == 0 || frameCount <= 2 || frameCount <= pointCount
  {
    if pointCount == 0 || frameCount <= 2 || frameCount <= pointCount {
      forall values: seq<real> | |values| == frameCount
        ensures AverageToFractionPoints(values, pointCount) == ResampleToFractionPoints(values, pointCount)
      {
        if frameCount >= 2 && pointCount > 0 {
          if frameCount <= pointCount {
            SpacingsShrink(frameCount, pointCount);
          } else {
            SpacingsShrink(pointCount, frameCount);
            assert Spacing(pointCount) == 1.0 == Spacing(frameCount);
          }
          forall j | 0 <= j < pointCount
            ensures AverageToFractionPoints(values, pointCount)[j] == ResampleToFractionPoints(values, pointCount)[j]
          {
            AveragedPointsAreInterpolated(values, pointCount, j);
          }
        }
      }
    } else {
      SpacingsShrink(if pointCount >= 2 then pointCount else 2, frameCount);
      WideAveragesDiffer(frameCount, pointCount);
      assert |Risen(frameCount)| == frameCount;
      assert AverageToFractionPoints(Risen(frameCount), pointCount)[0]
        != ResampleToFractionPoints(Risen(frameCount), pointCount)[0];
    }
  }

  // ------------------------------------------------------------------ what every point is

  /** How many steps of the wider of the two spacings the unit interval takes. */
  ghost function WiderSteps(frameCount: nat, pointCount: nat): (steps: nat)
    ensures steps >= 1
    ensures frameCount >= 2 && pointCount >= 2 ==>
      steps <= frameCount - 1 && steps <= pointCount - 1 && (steps == frameCount - 1 || steps == pointCount - 1)
    ensures frameCount < 2 || pointCount < 2 ==> steps == 1
  {
    if frameCount < 2 || pointCount < 2 then 1
    else if frameCount <= pointCount then frameCount - 1 else pointCount - 1
  }

  lemma HalfWidthIsTheWider(frameCount: nat, pointCount: nat)
    requires frameCount >= 2
    ensures HalfWidth(frameCount, pointCount) * WiderSteps(frameCount, pointCount) as real == 1.0
  {
    SpacingIsTheStep(frameCount);
    if pointCount >= 2 {
      SpacingIsTheStep(pointCount);
    }
    if frameCount <= pointCount {
      SpacingsShrink(frameCount, pointCount);
    } else {
      SpacingsShrink(if pointCount >= 2 then pointCount else 2, frameCount);
    }
  }

  lemma HowFarApart(x: real, t: real)
    ensures Distance(x, t) == if x < t then t - x else x - t
  {
  }

  lemma AtLeastNothing(x: real)
    ensures Larger(x, 0.0) == if x < 0.0 then 0.0 else x
  {
  }

  /** By how far short of one step two positions stand apart, of so many steps to the unit interval. */
  ghost function HowFarShort(x: real, t: real, steps: nat): real {
    var near := 1.0 - (if x < t then t - x else x - t) * steps as real;
    if near < 0.0 then 0.0 else near
  }

  lemma WeighsByHowFarShort(x: real, t: real, h: real, steps: nat)
    requires h > 0.0 && h * steps as real == 1.0
    ensures TriangularWeight(x, t, h) == HowFarShort(x, t, steps)
  {
    var apart := Distance(x, t);
    HowFarApart(x, t);
    hide Distance, Larger, TriangularWeight;
    DistanceOverAStep(apart, h, steps as real);
    WeightOf(x, t, h);
    AtLeastNothing(1.0 - apart * steps as real);
  }

  lemma WeightsAt(count: nat, t: real, h: real, i: nat)
    requires h > 0.0 && i < count
    ensures Weights(count, t, h)[i] == TriangularWeight(Position(count, i), t, h)
  {
  }

  /** A frame weighs for a point by how far short of one step of the wider spacing they stand apart. */
  lemma FramesWeighInTheWiderSteps(frameCount: nat, pointCount: nat, i: nat, j: nat)
    requires frameCount >= 2 && i < frameCount && j < pointCount
    ensures Weights(frameCount, Position(pointCount, j), HalfWidth(frameCount, pointCount))[i]
      == HowFarShort(Position(frameCount, i), Position(pointCount, j), WiderSteps(frameCount, pointCount))
  {
    hide *;
    var x, t, h := Position(frameCount, i), Position(pointCount, j), HalfWidth(frameCount, pointCount);
    WeightsAt(frameCount, t, h, i);
    HalfWidthIsTheWider(frameCount, pointCount);
    WeighsByHowFarShort(x, t, h, WiderSteps(frameCount, pointCount));
  }

  lemma {:induction false} NormalizedSums(weights: seq<real>, values: seq<real>, total: real, shares: seq<real>)
    requires total != 0.0 && |weights| == |values| == |shares|
    requires forall i :: 0 <= i < |weights| ==> shares[i] == weights[i] / total
    ensures WeightedSum(shares, values) == WeightedSum(weights, values) / total
  {
    if weights != [] {
      var last := |weights| - 1;
      NormalizedSums(weights[..last], values[..last], total, shares[..last]);
      hide WeightedSum;
      QuotientTimes(weights[last], total, values[last]);
      QuotientsAdd(WeightedSum(weights[..last], values[..last]), weights[last] * values[last], total);
    }
  }

  lemma QuotientTimes(weight: real, total: real, value: real)
    requires total != 0.0
    ensures weight / total * value == (weight * value) / total
  {
  }

  /** Every point is the frames' weighted sum over the sum of their weights, whatever the two resolutions; of one frame
      alone it is that frame. */
  lemma EveryPointWeighsItsFrames(values: seq<real>, pointCount: nat, j: nat)
    requires values != [] && j < pointCount
    ensures |values| == 1 ==> AverageToFractionPoints(values, pointCount)[j] == values[0]
    ensures |values| >= 2 ==>
      var weights := Weights(|values|, Position(pointCount, j), HalfWidth(|values|, pointCount));
      && SumOf(weights) > 0.0
      && AverageToFractionPoints(values, pointCount)[j] == WeightedSum(weights, values) / SumOf(weights)
  {
    if |values| >= 2 {
      RowsCanBeNormalized(|values|, pointCount, j);
      hide Weights, HalfWidth, Position, WeightedSum, SumOf;
      var weights := Weights(|values|, Position(pointCount, j), HalfWidth(|values|, pointCount));
      NormalizedSums(weights, values, SumOf(weights), Normalized(weights));
    }
  }
}
