/**
A power trace as a function of time: between samples it is a straight line, and its energy is
decided by the power at the times of the interval alone, however the trace is sampled.
 */
module PowerAtTime {
  import opened Outcomes
  import opened PowerTrace

  /** The power at a time, 0 where the trace does not reach. */
  function PowerAt(series: Series, time: int): real {
    match Interpolate(series, time)
    case Some(power) => power
    case None => 0.0
  }

  predicate Measurable(series: Series, start: int, end: int) {
    Increasing(series) && Covers(series, start) && Covers(series, end) && start <= end
  }

  // ----- at and between samples -----

  lemma {:induction false} InterpolateAtSample(series: Series, k: nat)
    requires Increasing(series) && k < |series|
    ensures Interpolate(series, series[k].time) == Some(series[k].watts)
  {
    if k > 0 {
      assert series[0].time < series[k].time && !(series[0].time < series[k].time < series[1].time);
      InterpolateAtSample(series[1..], k - 1);
    }
  }

  lemma {:induction false} InterpolateBetween(series: Series, k: nat, time: int)
    requires Increasing(series) && k + 1 < |series| && series[k].time < time < series[k + 1].time
    ensures Interpolate(series, time) == Some(OnLine(series[k], series[k + 1], time))
  {
    if k > 0 {
      assert series[0].time < series[1].time <= series[k].time;
      InterpolateBetween(series[1..], k - 1, time);
    }
  }

  /** The last sample at or before a time. */
  lemma {:induction false} Locate(series: Series, time: int) returns (k: nat)
    requires Increasing(series) && Covers(series, time)
    ensures k < |series| && series[k].time <= time
    ensures k + 1 < |series| ==> time < series[k + 1].time
    ensures k + 1 == |series| ==> time == series[k].time
  {
    k := 0;
    if |series| >= 2 && series[1].time <= time {
      k := Locate(series[1..], time);
      k := k + 1;
    }
  }

  /** Two points of a line span the same line. */
  lemma OnLineOfLine(left: Sample, right: Sample, a: int, b: int, time: int)
    requires left.time < right.time && a < b
    ensures OnLine(Sample(a, OnLine(left, right, a)), Sample(b, OnLine(left, right, b)), time)
         == OnLine(left, right, time)
  {
    var d, rise := (right.time - left.time) as real, right.watts - left.watts;
    var m := rise / d;
    Slope((a - left.time) as real, d, rise);
    Slope((b - left.time) as real, d, rise);
    Slope((time - left.time) as real, d, rise);
    LineThrough(left.watts, m, (a - left.time) as real, (b - left.time) as real, (time - left.time) as real);
    assert (b - a) as real == (b - left.time) as real - (a - left.time) as real;
    assert (time - a) as real == (time - left.time) as real - (a - left.time) as real;
  }

  lemma LineThrough(w: real, m: real, x: real, y: real, z: real)
    requires x < y
    ensures w + m * x + (z - x) / (y - x) * (w + m * y - (w + m * x)) == w + m * z
  {
    var d := y - x;
    assert w + m * y - (w + m * x) == m * d;
    Cancel(z - x, d, m);
    assert m * (z - x) == m * z - m * x;
  }

  lemma Cancel(x: real, d: real, m: real)
    requires d > 0.0
    ensures x / d * (m * d) == m * x
  {
    var q := x / d;
    assert q * d == x;
    assert q * (m * d) == m * (q * d);
  }

  predicate NoneInside(series: Series, a: int, b: int) {
    forall i | 0 <= i < |series| :: !(a < series[i].time < b)
  }

  /** Between two times without a sample between them the power is the line through the powers at both. */
  lemma LinearBetween(series: Series, a: int, b: int, time: int)
    requires Measurable(series, a, b) && a < time < b && NoneInside(series, a, b)
    ensures PowerAt(series, time) == OnLine(Sample(a, PowerAt(series, a)), Sample(b, PowerAt(series, b)), time)
  {
    var k := Locate(series, a);
    var left, right := series[k], series[k + 1];
    assert b <= right.time;
    InterpolateOnSegment(series, k, a);
    InterpolateOnSegment(series, k, b);
    InterpolateOnSegment(series, k, time);
    OnLineOfLine(left, right, a, b, time);
  }

  lemma InterpolateOnSegment(series: Series, k: nat, time: int)
    requires Increasing(series) && k + 1 < |series| && series[k].time <= time <= series[k + 1].time
    ensures Interpolate(series, time) == Some(OnLine(series[k], series[k + 1], time))
  {
    OnLineEnds(series[k], series[k + 1]);
    if time == series[k].time {
      InterpolateAtSample(series, k);
    } else if time == series[k + 1].time {
      InterpolateAtSample(series, k + 1);
    } else {
      InterpolateBetween(series, k, time);
    }
  }

  // ----- energy from power -----

  lemma {:induction false} NothingInside(series: Series, a: int, b: int)
    requires NoneInside(series, a, b)
    ensures Inside(series, a, b) == []
  {
    if series != [] {
      NothingInside(series[1..], a, b);
    }
  }

  /** An interval without a sample inside is one trapezoid. */
  lemma OneTrapezoid(series: Series, a: int, b: int)
    requires Measurable(series, a, b) && NoneInside(series, a, b)
    ensures Energy(series, a, b) == Trapezoid(Sample(a, PowerAt(series, a)), Sample(b, PowerAt(series, b)))
  {
    ClipIs(series, a, b);
    NothingInside(series, a, b);
    var inside := Inside(series, a, b);
    if a == b {
      SameTimeEmpty(PointAt(series, a));
    } else {
      var left, right := PointAt(series, a), PointAt(series, b);
      assert Framed(left, inside, right) == [left, right] && [left, right][1..] == [right];
      assert Integrate([right]) == 0.0;
    }
  }

  lemma FindInside(series: Series, a: int, b: int) returns (m: int)
    requires Measurable(series, a, b) && !NoneInside(series, a, b)
    ensures a < m < b && Measurable(series, a, m) && Measurable(series, m, b)
  {
    var i :| 0 <= i < |series| && a < series[i].time < b;
    m := series[i].time;
  }

  lemma CoversBetween(series: Series, a: int, b: int, m: int)
    requires Measurable(series, a, b) && a <= m <= b
    ensures Measurable(series, a, m) && Measurable(series, m, b)
  {
  }

  predicate SamePower(x: Series, y: Series, a: int, b: int) {
    forall time | a <= time <= b :: PowerAt(x, time) == PowerAt(y, time)
  }

  /** Energy depends on the power at each time alone, not on when it was sampled. */
  lemma {:induction false} SamePowerSameEnergy(x: Series, y: Series, a: int, b: int)
    requires Measurable(x, a, b) && Measurable(y, a, b) && SamePower(x, y, a, b)
    ensures Energy(x, a, b) == Energy(y, a, b)
    decreases b - a
  {
    if NoneInside(x, a, b) && NoneInside(y, a, b) {
      OneTrapezoid(x, a, b);
      OneTrapezoid(y, a, b);
    } else {
      var m := a;
      if !NoneInside(x, a, b) {
        m := FindInside(x, a, b);
      } else {
        m := FindInside(y, a, b);
      }
      CoversBetween(x, a, b, m);
      CoversBetween(y, a, b, m);
      SamePowerSameEnergy(x, y, a, m);
      SamePowerSameEnergy(x, y, m, b);
      EnergyAdditive(x, a, m, b);
      EnergyAdditive(y, a, m, b);
    }
  }

  predicate NeverNegative(series: Series, a: int, b: int) {
    forall time | a <= time <= b :: PowerAt(series, time) >= 0.0
  }

  predicate AlwaysZero(series: Series, a: int, b: int) {
    forall time | a <= time <= b :: PowerAt(series, time) == 0.0
  }

  /** Power that is never negative has no negative energy, and none exactly when it is zero throughout. */
  lemma {:induction false} EnergyZeroIff(series: Series, a: int, b: int)
    requires Measurable(series, a, b) && NeverNegative(series, a, b) && a < b
    ensures Energy(series, a, b) >= 0.0
    ensures Energy(series, a, b) == 0.0 <==> AlwaysZero(series, a, b)
    decreases b - a
  {
    if NoneInside(series, a, b) {
      OneTrapezoid(series, a, b);
      TrapezoidZeroIff(Sample(a, PowerAt(series, a)), Sample(b, PowerAt(series, b)));
      ZeroThroughout(series, a, b);
    } else {
      var m := FindInside(series, a, b);
      EnergyZeroIff(series, a, m);
      EnergyZeroIff(series, m, b);
      EnergyAdditive(series, a, m, b);
      ZeroOnBoth(series, a, m, b);
    }
  }

  lemma ZeroOnBoth(series: Series, a: int, m: int, b: int)
    requires a <= m <= b
    ensures AlwaysZero(series, a, b) <==> AlwaysZero(series, a, m) && AlwaysZero(series, m, b)
  {
  }

  lemma TrapezoidZeroIff(left: Sample, right: Sample)
    requires left.time < right.time && left.watts >= 0.0 && right.watts >= 0.0
    ensures Trapezoid(left, right) >= 0.0
    ensures Trapezoid(left, right) == 0.0 <==> left.watts == 0.0 && right.watts == 0.0
  {
    var mean, seconds := (left.watts + right.watts) * 0.5, Seconds(left.time, right.time);
    assert seconds > 0.0;
    assert mean >= 0.0;
    ProductPositive(mean, seconds);
  }

  lemma ProductPositive(x: real, y: real)
    requires x >= 0.0 && y > 0.0
    ensures x * y >= 0.0 && (x * y == 0.0 <==> x == 0.0)
  {
  }

  lemma ZeroThroughout(series: Series, a: int, b: int)
    requires Measurable(series, a, b) && NoneInside(series, a, b)
    ensures AlwaysZero(series, a, b) <==> a <= b && PowerAt(series, a) == 0.0 && PowerAt(series, b) == 0.0
  {
    if PowerAt(series, a) == 0.0 && PowerAt(series, b) == 0.0 {
      forall time | a <= time <= b
        ensures PowerAt(series, time) == 0.0
      {
        if a < time < b {
          LinearBetween(series, a, b, time);
        }
      }
    }
  }

  // ----- in terms of the samples -----

  lemma OnLineZeroIff(left: Sample, right: Sample, time: int)
    requires left.time < time < right.time && left.watts >= 0.0 && right.watts >= 0.0
    ensures OnLine(left, right, time) >= 0.0
    ensures OnLine(left, right, time) == 0.0 <==> left.watts == 0.0 && right.watts == 0.0
  {
    var x, d := (time - left.time) as real, (right.time - left.time) as real;
    var f := x / d;
    assert 0.0 < f < 1.0 by {
      assert f * d == x && 0.0 < x < d;
    }
    ProductPositive(left.watts, 1.0 - f);
    ProductPositive(right.watts, f);
    assert left.watts + f * (right.watts - left.watts) == left.watts * (1.0 - f) + right.watts * f;
  }

  predicate Nonnegative(series: Series) {
    forall i | 0 <= i < |series| :: series[i].watts >= 0.0
  }

  lemma PowerNonnegative(series: Series, time: int)
    requires Increasing(series) && Covers(series, time) && Nonnegative(series)
    ensures PowerAt(series, time) >= 0.0
  {
    var k := Locate(series, time);
    if time == series[k].time {
      InterpolateAtSample(series, k);
    } else {
      InterpolateBetween(series, k, time);
      OnLineZeroIff(series[k], series[k + 1], time);
    }
  }

  /** Sample i is on a segment that meets the interval, from the last at or before it to the first at or after it. */
  predicate Around(series: Series, i: nat, start: int, end: int) {
    && i < |series|
    && (i + 1 < |series| ==> start < series[i + 1].time)
    && (i > 0 ==> series[i - 1].time < end)
  }

  predicate ZeroAround(series: Series, start: int, end: int) {
    forall i | 0 <= i < |series| && Around(series, i, start, end) :: series[i].watts == 0.0
  }

  lemma ZeroAroundIsZero(series: Series, start: int, end: int, time: int)
    requires Measurable(series, start, end) && Nonnegative(series) && start <= time <= end
    requires ZeroAround(series, start, end)
    ensures PowerAt(series, time) == 0.0
  {
    var k := Locate(series, time);
    assert k > 0 ==> series[k - 1].time < series[k].time;
    assert Around(series, k, start, end);
    if time == series[k].time {
      InterpolateAtSample(series, k);
    } else {
      InterpolateBetween(series, k, time);
      assert k + 2 < |series| ==> series[k + 1].time < series[k + 2].time;
      assert Around(series, k + 1, start, end);
      OnLineZeroIff(series[k], series[k + 1], time);
    }
  }

  lemma ZeroPowerAround(series: Series, start: int, end: int, i: nat)
    requires Measurable(series, start, end) && Nonnegative(series) && start < end && Around(series, i, start, end)
    requires AlwaysZero(series, start, end)
    ensures series[i].watts == 0.0
  {
    var time := series[i].time;
    if start <= time <= end {
      InterpolateAtSample(series, i);
      assert PowerAt(series, time) == 0.0;
    } else if time < start {
      assert i + 1 < |series|;
      InterpolateBetween(series, i, start);
      OnLineZeroIff(series[i], series[i + 1], start);
      assert PowerAt(series, start) == 0.0;
    } else {
      assert i > 0;
      InterpolateBetween(series, i - 1, end);
      OnLineZeroIff(series[i - 1], series[i], end);
      assert PowerAt(series, end) == 0.0;
    }
  }

  /** Nonnegative samples have no energy over an interval exactly when those around it are all zero. */
  lemma NoEnergyIffZeroAround(series: Series, start: int, end: int)
    requires Measurable(series, start, end) && Nonnegative(series) && start < end
    ensures Energy(series, start, end) >= 0.0
    ensures Energy(series, start, end) == 0.0 <==> ZeroAround(series, start, end)
  {
    forall time | start <= time <= end
      ensures PowerAt(series, time) >= 0.0
    {
      PowerNonnegative(series, time);
    }
    EnergyZeroIff(series, start, end);
    if ZeroAround(series, start, end) {
      forall time | start <= time <= end
        ensures PowerAt(series, time) == 0.0
      {
        ZeroAroundIsZero(series, start, end, time);
      }
    }
    if AlwaysZero(series, start, end) {
      forall i | 0 <= i < |series| && Around(series, i, start, end)
        ensures series[i].watts == 0.0
      {
        ZeroPowerAround(series, start, end, i);
      }
    }
  }
}
