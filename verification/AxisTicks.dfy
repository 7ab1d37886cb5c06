/** The ticks of a chart axis: multiples of 1, 2, 5 or 10 times a power of ten that cover the largest value. */
module AxisTicks {
  import opened OrderStatistics
  import opened Arithmetic

  const TARGET_COUNT := 5.0

  /** The power of ten just below the rough step, as its decimal logarithm rounded down gives it. */
  predicate IsMagnitude(magnitude: real, rough: real) {
    0.0 < magnitude <= rough < 10.0 * magnitude
  }

  function StepOf(rough: real, magnitude: real): real
    requires IsMagnitude(magnitude, rough)
  {
    var normalized := rough / magnitude;
    if normalized <= 1.0 then magnitude
    else if normalized <= 2.0 then 2.0 * magnitude
    else if normalized <= 5.0 then 5.0 * magnitude
    else 10.0 * magnitude
  }

  function Ticks(step: real, count: nat): (ticks: seq<real>)
    ensures |ticks| == count + 1 && forall k | 0 <= k <= count :: ticks[k] == k as real * step
  {
    seq(count + 1, k requires 0 <= k <= count => k as real * step)
  }

  function LinearTicks(maximum: real, magnitude: real): seq<real>
    requires maximum > 0.0 ==> IsMagnitude(magnitude, maximum / TARGET_COUNT)
  {
    if maximum <= 0.0 then [0.0, 1.0]
    else
      var step := StepOf(maximum / TARGET_COUNT, magnitude);
      QuotientBounds(maximum, magnitude, step);
      Ticks(step, Ceiling(maximum / step))
  }

  lemma Normalized(rough: real, magnitude: real, factor: real)
    requires magnitude > 0.0
    ensures rough / magnitude <= factor <==> rough <= factor * magnitude
  {
    var normalized := rough / magnitude;
    assert magnitude * normalized == rough;
    ComparedByScale(magnitude, normalized, factor);
  }

  lemma ComparedByScale(scale: real, a: real, b: real)
    requires scale > 0.0
    ensures a <= b <==> scale * a <= b * scale
  {
    if a <= b {
      Scaled(scale, a, b);
    } else {
      StrictlyScaled(scale, b, a);
    }
  }

  /** The largest value is more than two steps and at most five. */
  lemma StepBounds(maximum: real, magnitude: real, step: real)
    requires maximum > 0.0 && IsMagnitude(magnitude, maximum / TARGET_COUNT)
    requires step == StepOf(maximum / TARGET_COUNT, magnitude)
    ensures step > 0.0 && 2.0 * step < maximum <= 5.0 * step
  {
    var rough := maximum / TARGET_COUNT;
    assert maximum == 5.0 * rough;
    Normalized(rough, magnitude, 1.0);
    Normalized(rough, magnitude, 2.0);
    Normalized(rough, magnitude, 5.0);
  }

  lemma QuotientBounds(maximum: real, magnitude: real, step: real)
    requires maximum > 0.0 && IsMagnitude(magnitude, maximum / TARGET_COUNT)
    requires step == StepOf(maximum / TARGET_COUNT, magnitude)
    ensures step > 0.0 && 3 <= Ceiling(maximum / step) <= 5
  {
    StepBounds(maximum, magnitude, step);
    Normalized(maximum, step, 2.0);
    Normalized(maximum, step, 5.0);
  }

  /** Four to six ticks from zero; the last is the first multiple of the step to reach the largest value. */
  lemma TicksCover(maximum: real, magnitude: real)
    requires maximum > 0.0 && IsMagnitude(magnitude, maximum / TARGET_COUNT)
    ensures var ticks := LinearTicks(maximum, magnitude);
            && 4 <= |ticks| <= 6 && ticks[0] == 0.0
            && ticks[|ticks| - 2] < maximum <= ticks[|ticks| - 1]
  {
    var step := StepOf(maximum / TARGET_COUNT, magnitude);
    QuotientBounds(maximum, magnitude, step);
    var quotient := maximum / step;
    var count := Ceiling(quotient);
    CeilingOf(quotient);
    Normalized(maximum, step, count as real);
    Normalized(maximum, step, (count - 1) as real);
  }
}
