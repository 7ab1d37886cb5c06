/**
A sampled power trace as a piecewise-linear function of time: interpolation, clipping to the launch
interval, and trapezoidal integration to energy. Watts are reals; timestamps are nanoseconds.
 */
module PowerTrace {
  import opened Outcomes

  datatype Sample = Sample(time: int, watts: real)

  type Series = seq<Sample>

  const NS_PER_SECOND := 1_000_000_000.0

  predicate Increasing(series: Series) {
    forall i, j | 0 <= i < j < |series| :: series[i].time < series[j].time
  }

  function Last(series: Series): Sample
    requires series != []
  {
    series[|series| - 1]
  }

  function Seconds(fromNs: int, toNs: int): real {
    (toNs - fromNs) as real / NS_PER_SECOND
  }

  function Trapezoid(left: Sample, right: Sample): real {
    (left.watts + right.watts) * 0.5 * Seconds(left.time, right.time)
  }

  function Integrate(series: Series): real {
    if |series| < 2 then 0.0 else Trapezoid(series[0], series[1]) + Integrate(series[1..])
  }

  /** The power at `time` on the straight line through two samples. */
  function OnLine(left: Sample, right: Sample, time: int): real
    requires left.time < right.time
  {
    var fraction := (time - left.time) as real / (right.time - left.time) as real;
    left.watts + fraction * (right.watts - left.watts)
  }

  /** The power at `time`; None where the source raises because `time` is outside the trace. */
  function Interpolate(series: Series, time: int): Option<real> {
    if series == [] then None
    else if time == series[0].time then Some(series[0].watts)
    else if |series| == 1 then None
    else if series[0].time < time < series[1].time then Some(OnLine(series[0], series[1], time))
    else Interpolate(series[1..], time)
  }

  /** The samples strictly inside an interval. */
  function Inside(series: Series, start: int, end: int): Series {
    if series == [] then []
    else (if start < series[0].time < end then [series[0]] else []) + Inside(series[1..], start, end)
  }

  /** A trace with interpolated end points; an empty interval has one of them. */
  function Framed(first: Sample, inside: Series, last: Sample): Series {
    [first] + inside + (if last.time != first.time then [last] else [])
  }

  /** The trace over [start, end], with interpolated end points; None where the source raises. */
  function Clip(series: Series, start: int, end: int): Option<Series> {
    if series == [] || start < series[0].time || end > Last(series).time then None
    else
      match (Interpolate(series, start), Interpolate(series, end))
      case (Some(first), Some(last)) =>
        Some(Framed(Sample(start, first), Inside(series, start, end), Sample(end, last)))
      case _ => None
  }

  method ClipTrace(series: Series, start: int, end: int) returns (r: Option<Series>)
    ensures r == Clip(series, start, end)
  {
    if series == [] || start < series[0].time || end > Last(series).time {
      return None;
    }
    var first, last := Interpolate(series, start), Interpolate(series, end);
    if first.None? || last.None? {
      return None;
    }
    var clipped := [Sample(start, first.value)];
    for index := 0 to |series|
      invariant clipped + Inside(series[index..], start, end)
             == [Sample(start, first.value)] + Inside(series, start, end)
    {
      assert series[index..][1..] == series[index + 1..];
      if start < series[index].time < end {
        clipped := clipped + [series[index]];
      }
    }
    assert series[|series|..] == [] && clipped == [Sample(start, first.value)] + Inside(series, start, end);
    if end != start {
      clipped := clipped + [Sample(end, last.value)];
    }
    assert clipped == Framed(Sample(start, first.value), Inside(series, start, end), Sample(end, last.value));
    r := Some(clipped);
  }

  // ----- order -----

  predicate Covers(series: Series, time: int) {
    series != [] && series[0].time <= time <= Last(series).time
  }

  /** Within the bounds of an increasing trace interpolation succeeds, within the hull of the samples. */
  lemma {:induction false} InterpolateInHull(series: Series, time: int, low: real, high: real)
    requires Increasing(series)
    requires forall i | 0 <= i < |series| :: low <= series[i].watts <= high
    ensures Interpolate(series, time).Some? <==> Covers(series, time)
    ensures Covers(series, time) ==> low <= Interpolate(series, time).value <= high
  {
    if |series| >= 2 {
      InterpolateInHull(series[1..], time, low, high);
      assert Last(series[1..]) == Last(series);
      if series[0].time < time < series[1].time {
        OnLineBetween(series[0], series[1], time, low, high);
      } else if time == series[0].time {
      }
    }
  }

  lemma OnLineBetween(left: Sample, right: Sample, time: int, low: real, high: real)
    requires left.time < time < right.time
    requires low <= left.watts <= high && low <= right.watts <= high
    ensures low <= OnLine(left, right, time) <= high
  {
    var d := (right.time - left.time) as real;
    var f := (time - left.time) as real / d;
    assert 0.0 <= f <= 1.0 by {
      var x := (time - left.time) as real;
      assert f * d == x;
      assert 0.0 < x < d;
    }
    Blend(left.watts, right.watts, f, low, high);
  }

  lemma ProductNonnegative(x: real, y: real)
    requires x >= 0.0 && y >= 0.0
    ensures x * y >= 0.0
  {
  }

  lemma Blend(a: real, b: real, f: real, low: real, high: real)
    requires 0.0 <= f <= 1.0 && low <= a <= high && low <= b <= high
    ensures low <= a + f * (b - a) <= high
  {
    var g := 1.0 - f;
    ProductNonnegative(g, a - low);
    ProductNonnegative(f, b - low);
    ProductNonnegative(g, high - a);
    ProductNonnegative(f, high - b);
    assert a + f * (b - a) - low == g * (a - low) + f * (b - low);
    assert high - (a + f * (b - a)) == g * (high - a) + f * (high - b);
  }

  // ----- what clipping returns -----

  lemma {:induction false} InsideMembers(series: Series, start: int, end: int)
    ensures forall sample :: sample in Inside(series, start, end) <==> sample in series && start < sample.time < end
  {
    if series != [] {
      InsideMembers(series[1..], start, end);
      assert series == [series[0]] + series[1..];
    }
  }

  lemma {:induction false} InsideIncreasing(series: Series, start: int, end: int)
    requires Increasing(series)
    ensures Increasing(Inside(series, start, end))
    ensures var inside := Inside(series, start, end);
            inside != [] ==> series != [] && series[0].time <= inside[0].time
  {
    if series != [] {
      InsideIncreasing(series[1..], start, end);
    }
  }

  lemma FramedShape(first: Sample, inside: Series, last: Sample, low: real, high: real)
    requires Increasing(inside) && first.time <= last.time
    requires first.time == last.time ==> first.watts == last.watts
    requires forall i | 0 <= i < |inside| :: first.time < inside[i].time < last.time && low <= inside[i].watts <= high
    requires low <= first.watts <= high && low <= last.watts <= high
    ensures var framed := Framed(first, inside, last);
            && framed[0] == first && Last(framed) == last
            && Increasing(framed)
            && (forall i | 0 <= i < |framed| :: low <= framed[i].watts <= high)
            && (forall sample :: sample in framed && first.time < sample.time < last.time <==> sample in inside)
  {
    var framed := Framed(first, inside, last);
    assert forall i | 0 < i <= |inside| :: framed[i] == inside[i - 1];
  }

  /**
  The clipped trace starts and ends exactly at the interval's bounds, keeps exactly the samples
  strictly inside, is strictly increasing and stays within the hull of the samples.
   */
  lemma ClipShape(series: Series, start: int, end: int, low: real, high: real)
    requires Increasing(series) && start <= end
    requires forall i | 0 <= i < |series| :: low <= series[i].watts <= high
    ensures Clip(series, start, end).Some? <==> Covers(series, start) && Covers(series, end)
    ensures Clip(series, start, end).Some? ==>
              var clipped := Clip(series, start, end).value;
              && clipped != [] && clipped[0].time == start && Last(clipped).time == end
              && Increasing(clipped)
              && (forall i | 0 <= i < |clipped| :: low <= clipped[i].watts <= high)
              && (forall sample: Sample | start < sample.time < end :: sample in clipped <==> sample in series)
  {
    InterpolateInHull(series, start, low, high);
    InterpolateInHull(series, end, low, high);
    InsideMembers(series, start, end);
    InsideIncreasing(series, start, end);
    var inside := Inside(series, start, end);
    if Covers(series, start) && Covers(series, end) {
      ClipIs(series, start, end);
      assert forall i | 0 <= i < |inside| :: inside[i] in series;
      FramedShape(PointAt(series, start), inside, PointAt(series, end), low, high);
    }
  }

  // ----- energy -----

  /** Energy from the start of the trace to `time`: the antiderivative of the piecewise-linear power. */
  ghost function EnergyUpTo(series: Series, time: int): real
    requires Increasing(series) && Covers(series, time)
  {
    if |series| == 1 then 0.0
    else if time < series[1].time then
      Trapezoid(series[0], Sample(time, OnLine(series[0], series[1], time)))
    else Trapezoid(series[0], series[1]) + EnergyUpTo(series[1..], time)
  }

  lemma Areas(w: real, m: real, x: real, y: real, k: real)
    ensures (w + m * x + (w + m * y)) * 0.5 * ((y - x) * k)
         == (w + (w + m * y)) * 0.5 * (y * k) - (w + (w + m * x)) * 0.5 * (x * k)
  {
    var mx, my := m * x, m * y;
    assert mx * y == my * x;
    assert (w + mx + (w + my)) * (y - x) == (w + (w + my)) * y - (w + (w + mx)) * x;
  }

  /** On one segment, the area between two times is a difference of areas from its left end. */
  lemma SegmentEnergy(left: Sample, right: Sample, a: int, b: int)
    requires left.time < right.time
    ensures Trapezoid(Sample(a, OnLine(left, right, a)), Sample(b, OnLine(left, right, b)))
         == Trapezoid(left, Sample(b, OnLine(left, right, b))) - Trapezoid(left, Sample(a, OnLine(left, right, a)))
  {
    var d, rise := (right.time - left.time) as real, right.watts - left.watts;
    var x, y := (a - left.time) as real, (b - left.time) as real;
    var m := rise / d;
    Slope(x, d, rise);
    Slope(y, d, rise);
    Areas(left.watts, m, x, y, 1.0 / NS_PER_SECOND);
    assert (b - a) as real == y - x;
  }

  lemma Slope(x: real, d: real, rise: real)
    requires d > 0.0
    ensures x / d * rise == rise / d * x
  {
    var q := 1.0 / d;
    assert x / d == x * q && rise / d == rise * q;
  }

  lemma OnLineEnds(left: Sample, right: Sample)
    requires left.time < right.time
    ensures OnLine(left, right, left.time) == left.watts
    ensures OnLine(left, right, right.time) == right.watts
  {
    var d := (right.time - left.time) as real;
    assert d / d == 1.0 && 0.0 / d == 0.0;
  }

  lemma SameTimeEmpty(sample: Sample)
    ensures Trapezoid(sample, sample) == 0.0
  {
  }

  function PointAt(series: Series, time: int): Sample
    requires Interpolate(series, time).Some?
  {
    Sample(time, Interpolate(series, time).value)
  }

  /** Clipping past the first segment does not see the first sample. */
  lemma ClipTail(series: Series, start: int, end: int)
    requires Increasing(series) && |series| >= 2 && series[1].time <= start <= end <= Last(series).time
    ensures Clip(series, start, end) == Clip(series[1..], start, end)
  {
    assert Last(series[1..]) == Last(series);
    assert Inside(series, start, end) == Inside(series[1..], start, end);
    assert Interpolate(series, start) == Interpolate(series[1..], start);
    assert Interpolate(series, end) == Interpolate(series[1..], end);
  }

  lemma {:induction false} InsideNone(series: Series, start: int, end: int)
    requires Increasing(series) && (series != [] ==> end <= series[0].time)
    ensures Inside(series, start, end) == []
  {
    if series != [] {
      InsideNone(series[1..], start, end);
    }
  }

  lemma {:induction false} InsideFrom(series: Series, start: int, start': int, end: int)
    requires Increasing(series) && (series != [] ==> start < series[0].time && start' < series[0].time)
    ensures Inside(series, start, end) == Inside(series, start', end)
  {
    if series != [] {
      InsideFrom(series[1..], start, start', end);
    }
  }

  lemma InsideAcross(series: Series, start: int, end: int)
    requires Increasing(series) && |series| >= 2
    requires series[0].time <= start < series[1].time < end
    ensures Inside(series, start, end) == [series[1]] + Inside(series[1..], series[1].time, end)
  {
    var rest, knot := series[1..], series[1];
    InsideFrom(rest[1..], start, knot.time, end);
    assert Inside(series, start, end) == Inside(rest, start, end);
  }

  /** Clipping across the first sample: the piece up to it, then the clip from it. */
  lemma ClipAcross(series: Series, start: int, end: int)
    requires Increasing(series) && |series| >= 2
    requires series[0].time <= start < series[1].time < end <= Last(series).time
    ensures var whole, tail := Clip(series, start, end), Clip(series[1..], series[1].time, end);
            && whole.Some? && tail.Some? && tail.value != [] && tail.value[0] == series[1]
            && whole.value == [Sample(start, OnLine(series[0], series[1], start))] + tail.value
  {
    var rest, knot := series[1..], series[1];
    assert Last(rest) == Last(series);
    OnLineEnds(series[0], knot);
    InterpolateDefined(rest, end);
    InsideAcross(series, start, end);
    var first := Sample(start, OnLine(series[0], knot, start));
    var last := Sample(end, Interpolate(rest, end).value);
    assert Clip(series, start, end) == Some(Framed(first, [knot] + Inside(rest, knot.time, end), last));
    assert Clip(rest, knot.time, end) == Some(Framed(knot, Inside(rest, knot.time, end), last));
    assert Framed(first, [knot] + Inside(rest, knot.time, end), last)
        == [first] + Framed(knot, Inside(rest, knot.time, end), last);
  }

  lemma {:induction false} InterpolateDefined(series: Series, time: int)
    requires Increasing(series) && Covers(series, time)
    ensures Interpolate(series, time).Some?
  {
    if |series| >= 2 && time >= series[1].time {
      InterpolateDefined(series[1..], time);
    }
  }

  /** The energy of a clipped trace is the difference of the antiderivative at its bounds. */
  lemma {:induction false} ClipEnergy(series: Series, start: int, end: int)
    requires Increasing(series) && Covers(series, start) && Covers(series, end) && start <= end
    ensures Clip(series, start, end).Some?
    ensures Integrate(Clip(series, start, end).value) == EnergyUpTo(series, end) - EnergyUpTo(series, start)
  {
    InterpolateDefined(series, start);
    InterpolateDefined(series, end);
    if |series| >= 2 {
      var left, right, rest := series[0], series[1], series[1..];
      OnLineEnds(left, right);
      assert Last(rest) == Last(series);
      if right.time <= start {
        ClipTail(series, start, end);
        ClipEnergy(rest, start, end);
      } else if right.time < end {
        ClipAcross(series, start, end);
        ClipEnergy(rest, right.time, end);
        SegmentEnergy(left, right, start, right.time);
        KnotEnergy(series);
      } else {
        ClipWithin(series, start, end);
        SegmentEnergy(left, right, start, end);
        if end == right.time { KnotEnergy(series); }
      }
    } else {
      assert start == end == series[0].time && Inside(series, start, end) == [];
      assert |Clip(series, start, end).value| == 1;
    }
  }

  lemma KnotEnergy(series: Series)
    requires Increasing(series) && |series| >= 2
    requires Covers(series, series[1].time)
    ensures EnergyUpTo(series, series[1].time) == Trapezoid(series[0], series[1])
    ensures EnergyUpTo(series[1..], series[1].time) == 0.0
  {
    var rest := series[1..];
    if |rest| >= 2 {
      OnLineEnds(rest[0], rest[1]);
      SameTimeEmpty(rest[0]);
    }
  }

  lemma ClipWithin(series: Series, start: int, end: int)
    requires Increasing(series) && |series| >= 2
    requires series[0].time <= start <= end <= series[1].time && end <= Last(series).time && start < series[1].time
    ensures var first, last := OnLine(series[0], series[1], start), OnLine(series[0], series[1], end);
            && Clip(series, start, end).Some?
            && Integrate(Clip(series, start, end).value) == Trapezoid(Sample(start, first), Sample(end, last))
  {
    OnLineEnds(series[0], series[1]);
    InsideNone(series[1..], start, end);
    assert Inside(series, start, end) == [];
    InterpolateDefined(series, end);
    SameTimeEmpty(Sample(start, OnLine(series[0], series[1], start)));
  }

  ghost function Energy(series: Series, start: int, end: int): real
    requires Increasing(series) && Covers(series, start) && Covers(series, end) && start <= end
  {
    ClipEnergy(series, start, end);
    Integrate(Clip(series, start, end).value)
  }

  /** Energy is additive over time, also when the middle falls strictly inside a segment. */
  lemma EnergyAdditive(series: Series, a: int, b: int, c: int)
    requires Increasing(series) && Covers(series, a) && Covers(series, b) && Covers(series, c) && a <= b <= c
    ensures Energy(series, a, c) == Energy(series, a, b) + Energy(series, b, c)
  {
    ClipEnergy(series, a, b);
    ClipEnergy(series, b, c);
    ClipEnergy(series, a, c);
  }

  lemma TwoPoints(series: Series)
    requires Increasing(series) && |series| == 2
    ensures Clip(series, series[0].time, series[1].time) == Some(series)
  {
    var first, last := series[0], series[1];
    assert series[1..] == [last];
    assert Inside([last], first.time, last.time) == [];
    assert Inside(series, first.time, last.time) == [];
    assert Interpolate(series, last.time) == Interpolate([last], last.time) == Some(last.watts);
    assert Framed(first, [], last) == series;
  }

  /** Clipping to the whole trace changes nothing. */
  lemma {:induction false} ClipWhole(series: Series)
    requires Increasing(series) && series != []
    ensures Clip(series, series[0].time, Last(series).time) == Some(series)
  {
    if |series| == 1 {
      assert Inside(series, series[0].time, series[0].time) == [];
      assert Framed(series[0], [], series[0]) == series;
    }
    if |series| >= 2 {
      var rest := series[1..];
      assert Last(rest) == Last(series);
      InterpolateDefined(series, Last(series).time);
      ClipWhole(rest);
      OnLineEnds(series[0], series[1]);
      if |rest| >= 2 {
        ClipAcross(series, series[0].time, Last(series).time);
        assert series == [series[0]] + rest;
      } else {
        TwoPoints(series);
      }
    }
  }

  lemma {:induction false} IntegralAtLeast(series: Series, low: real, seconds: real)
    requires Increasing(series) && series != [] && seconds == Seconds(series[0].time, Last(series).time)
    requires forall i | 0 <= i < |series| :: low <= series[i].watts
    ensures Integrate(series) >= low * seconds
  {
    if |series| >= 2 {
      var rest := series[1..];
      assert Last(rest) == Last(series);
      var step, later := Seconds(series[0].time, series[1].time), Seconds(rest[0].time, Last(rest).time);
      IntegralAtLeast(rest, low, later);
      assert seconds == step + later;
      StepAtLeast(low, (series[0].watts + series[1].watts) * 0.5, step, later, Integrate(rest));
    }
  }

  lemma StepAtLeast(low: real, mean: real, step: real, later: real, energy: real)
    requires low <= mean && step >= 0.0 && low * later <= energy
    ensures low * (step + later) <= mean * step + energy
  {
    ProductNonnegative(mean - low, step);
    assert low * (step + later) == low * step + low * later;
  }

  lemma {:induction false} IntegralAtMost(series: Series, high: real, seconds: real)
    requires Increasing(series) && series != [] && seconds == Seconds(series[0].time, Last(series).time)
    requires forall i | 0 <= i < |series| :: series[i].watts <= high
    ensures Integrate(series) <= high * seconds
  {
    if |series| >= 2 {
      var rest := series[1..];
      assert Last(rest) == Last(series);
      var step, later := Seconds(series[0].time, series[1].time), Seconds(rest[0].time, Last(rest).time);
      IntegralAtMost(rest, high, later);
      assert seconds == step + later;
      StepAtMost(high, (series[0].watts + series[1].watts) * 0.5, step, later, Integrate(rest));
    }
  }

  lemma StepAtMost(high: real, mean: real, step: real, later: real, energy: real)
    requires mean <= high && step >= 0.0 && energy <= high * later
    ensures mean * step + energy <= high * (step + later)
  {
    ProductNonnegative(high - mean, step);
    assert high * (step + later) == high * step + high * later;
  }

  /** The energy over an interval lies between the least and greatest sampled power times its duration. */
  lemma EnergyInHull(series: Series, start: int, end: int, low: real, high: real, seconds: real)
    requires Increasing(series) && Covers(series, start) && Covers(series, end) && start <= end
    requires forall i | 0 <= i < |series| :: low <= series[i].watts <= high
    requires seconds == Seconds(start, end)
    ensures low * seconds <= Energy(series, start, end) <= high * seconds
  {
    ClipShape(series, start, end, low, high);
    IntegralAtLeast(Clip(series, start, end).value, low, seconds);
    IntegralAtMost(Clip(series, start, end).value, high, seconds);
  }

  /** Constant power: joules are watts times nanoseconds by a billion. */
  lemma ConstantEnergy(series: Series, start: int, end: int, watts: real)
    requires Increasing(series) && Covers(series, start) && Covers(series, end) && start <= end
    requires forall i | 0 <= i < |series| :: series[i].watts == watts
    ensures Energy(series, start, end) * 1_000_000_000.0 == watts * (end - start) as real
  {
    EnergyInHull(series, start, end, watts, watts, Seconds(start, end));
    assert Seconds(start, end) * 1_000_000_000.0 == (end - start) as real;
    Rescaled(watts, Seconds(start, end), 1_000_000_000.0);
  }

  lemma Rescaled(a: real, b: real, c: real)
    ensures a * b * c == a * (b * c)
  {
  }

  // ----- linearity -----

  predicate SameTimes(a: Series, b: Series) {
    |a| == |b| && forall i | 0 <= i < |a| :: a[i].time == b[i].time
  }

  /** The pointwise sum of two traces sampled at the same times. */
  function Add(a: Series, b: Series): (sum: Series)
    requires |a| == |b|
    ensures |sum| == |a|
    ensures forall i | 0 <= i < |a| :: sum[i] == Sample(a[i].time, a[i].watts + b[i].watts)
  {
    seq(|a|, i requires 0 <= i < |a| => Sample(a[i].time, a[i].watts + b[i].watts))
  }

  lemma TrapezoidAdds(a: Sample, b: Sample, a': Sample, b': Sample)
    requires a.time == a'.time && b.time == b'.time
    ensures Trapezoid(Sample(a.time, a.watts + a'.watts), Sample(b.time, b.watts + b'.watts))
         == Trapezoid(a, b) + Trapezoid(a', b')
  {
    var s := Seconds(a.time, b.time);
    assert (a.watts + a'.watts + (b.watts + b'.watts)) * 0.5 == (a.watts + b.watts) * 0.5 + (a'.watts + b'.watts) * 0.5;
    var x, y := (a.watts + b.watts) * 0.5, (a'.watts + b'.watts) * 0.5;
    assert (x + y) * s == x * s + y * s;
  }

  lemma {:induction false} IntegrateAdds(a: Series, b: Series)
    requires SameTimes(a, b)
    ensures Integrate(Add(a, b)) == Integrate(a) + Integrate(b)
  {
    if |a| >= 2 {
      IntegrateAdds(a[1..], b[1..]);
      TrapezoidAdds(a[0], a[1], b[0], b[1]);
      assert Add(a, b)[1..] == Add(a[1..], b[1..]);
    }
  }

  lemma OnLineAdds(a: Sample, b: Sample, a': Sample, b': Sample, time: int)
    requires a.time == a'.time < b.time == b'.time
    ensures OnLine(Sample(a.time, a.watts + a'.watts), Sample(b.time, b.watts + b'.watts), time)
         == OnLine(a, b, time) + OnLine(a', b', time)
  {
    var f := (time - a.time) as real / (b.time - a.time) as real;
    var x, y := b.watts - a.watts, b'.watts - a'.watts;
    assert f * (x + y) == f * x + f * y;
  }

  lemma {:induction false} InterpolateAdds(a: Series, b: Series, time: int)
    requires SameTimes(a, b) && Increasing(a)
    ensures Interpolate(Add(a, b), time).Some? <==> Interpolate(a, time).Some?
    ensures Interpolate(a, time).Some? <==> Interpolate(b, time).Some?
    ensures Interpolate(a, time).Some? ==>
              Interpolate(Add(a, b), time).value == Interpolate(a, time).value + Interpolate(b, time).value
  {
    if |a| >= 2 {
      InterpolateAdds(a[1..], b[1..], time);
      assert Add(a, b)[1..] == Add(a[1..], b[1..]);
      if a[0].time < time < a[1].time {
        OnLineAdds(a[0], a[1], b[0], b[1], time);
      }
    }
  }

  lemma {:induction false} InsideAdds(a: Series, b: Series, start: int, end: int)
    requires SameTimes(a, b)
    ensures SameTimes(Inside(a, start, end), Inside(b, start, end))
    ensures Inside(Add(a, b), start, end) == Add(Inside(a, start, end), Inside(b, start, end))
  {
    if a != [] {
      InsideAdds(a[1..], b[1..], start, end);
      var ra, rb, sum := Inside(a[1..], start, end), Inside(b[1..], start, end), Add(a, b);
      assert sum == [Sample(a[0].time, a[0].watts + b[0].watts)] + Add(a[1..], b[1..]);
      if start < a[0].time < end {
        AddCons(a[0], ra, b[0], rb);
        assert Inside(sum, start, end) == [sum[0]] + Add(ra, rb);
      } else {
        assert Inside(a, start, end) == ra && Inside(b, start, end) == rb;
        assert Inside(sum, start, end) == Add(ra, rb);
      }
    }
  }

  lemma AddCons(a: Sample, tail: Series, b: Sample, tail': Series)
    requires a.time == b.time && SameTimes(tail, tail')
    ensures SameTimes([a] + tail, [b] + tail')
    ensures Add([a] + tail, [b] + tail') == [Sample(a.time, a.watts + b.watts)] + Add(tail, tail')
  {
    assert ([a] + tail)[1..] == tail && ([b] + tail')[1..] == tail';
  }

  lemma FramedAdds(first: Sample, inside: Series, last: Sample, first': Sample, inside': Series, last': Sample)
    requires first.time == first'.time && last.time == last'.time && SameTimes(inside, inside')
    ensures SameTimes(Framed(first, inside, last), Framed(first', inside', last'))
    ensures Add(Framed(first, inside, last), Framed(first', inside', last'))
         == Framed(Sample(first.time, first.watts + first'.watts), Add(inside, inside'),
                   Sample(last.time, last.watts + last'.watts))
  {
    var x, y := Framed(first, inside, last), Framed(first', inside', last');
    var z := Framed(Sample(first.time, first.watts + first'.watts), Add(inside, inside'),
                    Sample(last.time, last.watts + last'.watts));
    assert SameTimes(x, y) && |z| == |x|;
    forall i | 0 <= i < |x|
      ensures Add(x, y)[i] == z[i]
    {
      if 0 < i <= |inside| {
        assert x[i] == inside[i - 1] && y[i] == inside'[i - 1];
      }
    }
  }

  /** Clipping commutes with adding two traces on common timestamps. */
  lemma ClipAdds(a: Series, b: Series, start: int, end: int)
    requires SameTimes(a, b) && Increasing(a) && Covers(a, start) && Covers(a, end) && start <= end
    ensures Clip(a, start, end).Some? && Clip(b, start, end).Some?
    ensures var ca, cb := Clip(a, start, end).value, Clip(b, start, end).value;
            SameTimes(ca, cb) && Clip(Add(a, b), start, end) == Some(Add(ca, cb))
  {
    AddKeepsTimes(a, b);
    ClipIs(a, start, end);
    ClipIs(b, start, end);
    ClipIs(Add(a, b), start, end);
    InterpolateAdds(a, b, start);
    InterpolateAdds(a, b, end);
    InsideAdds(a, b, start, end);
    FramedAdds(PointAt(a, start), Inside(a, start, end), PointAt(a, end),
               PointAt(b, start), Inside(b, start, end), PointAt(b, end));
  }

  lemma ClipIs(series: Series, start: int, end: int)
    requires Increasing(series) && Covers(series, start) && Covers(series, end)
    ensures Interpolate(series, start).Some? && Interpolate(series, end).Some?
    ensures Clip(series, start, end)
         == Some(Framed(PointAt(series, start), Inside(series, start, end), PointAt(series, end)))
  {
    InterpolateDefined(series, start);
    InterpolateDefined(series, end);
  }

  /** Interpolating, clipping and integrating commute with adding two traces on common timestamps. */
  lemma EnergyAdds(a: Series, b: Series, start: int, end: int)
    requires SameTimes(a, b) && Increasing(a) && Covers(a, start) && Covers(a, end) && start <= end
    ensures Increasing(b) && Increasing(Add(a, b)) && Covers(b, start) && Covers(b, end)
    ensures Covers(Add(a, b), start) && Covers(Add(a, b), end)
    ensures Energy(Add(a, b), start, end) == Energy(a, start, end) + Energy(b, start, end)
  {
    AddKeepsTimes(a, b);
    ClipAdds(a, b, start, end);
    IntegrateAdds(Clip(a, start, end).value, Clip(b, start, end).value);
  }

  lemma AddKeepsTimes(a: Series, b: Series)
    requires SameTimes(a, b) && Increasing(a)
    ensures Increasing(b) && Increasing(Add(a, b))
    ensures a != [] ==>
              && Last(Add(a, b)).time == Last(a).time == Last(b).time
              && Add(a, b)[0].time == a[0].time == b[0].time
  {
    var sum := Add(a, b);
    forall i, j | 0 <= i < j < |a|
      ensures b[i].time < b[j].time && sum[i].time < sum[j].time
    {
      assert a[i].time < a[j].time;
    }
  }
}
