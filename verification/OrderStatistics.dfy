/**
Order statistics of the performance report: the interpolated percentile, the summary with its
Tukey fences, and the bootstrap interval of the session medians. Values are reals.
 */
module OrderStatistics {
  import opened Outcomes
  import opened Arithmetic

  datatype StatisticsError = NoValues | IndexOutOfRange

  // ----- sorting -----

  predicate Sorted(s: seq<real>) {
    forall i, j | 0 <= i < j < |s| :: s[i] <= s[j]
  }

  function Insert(x: real, s: seq<real>): seq<real> {
    if s == [] || x <= s[0] then [x] + s else [s[0]] + Insert(x, s[1..])
  }

  function Sort(values: seq<real>): seq<real> {
    if values == [] then [] else Insert(values[0], Sort(values[1..]))
  }

  lemma {:induction false} InsertContents(x: real, s: seq<real>)
    ensures multiset(Insert(x, s)) == multiset{x} + multiset(s)
    ensures |Insert(x, s)| == |s| + 1
  {
    if s != [] {
      assert s == [s[0]] + s[1..];
    }
    if s != [] && s[0] < x {
      InsertContents(x, s[1..]);
    }
  }

  lemma {:induction false} InsertSorted(x: real, s: seq<real>)
    requires Sorted(s)
    ensures Sorted(Insert(x, s))
    ensures forall y | y in Insert(x, s) :: y == x || y in s
  {
    if s != [] && s[0] < x {
      InsertSorted(x, s[1..]);
      var rest := Insert(x, s[1..]);
      assert forall i | 0 <= i < |rest| :: rest[i] in rest;
    }
  }

  lemma {:induction false} SortFacts(values: seq<real>)
    ensures Sorted(Sort(values)) && multiset(Sort(values)) == multiset(values)
    ensures |Sort(values)| == |values|
  {
    if values != [] {
      SortFacts(values[1..]);
      InsertContents(values[0], Sort(values[1..]));
      InsertSorted(values[0], Sort(values[1..]));
      assert values == [values[0]] + values[1..];
    }
  }

  lemma SameFirst(a: seq<real>, b: seq<real>)
    requires Sorted(a) && Sorted(b) && multiset(a) == multiset(b) && a != []
    ensures b != [] && a[0] == b[0]
  {
    assert a[0] in multiset(b);
    assert b[0] in multiset(a);
  }

  lemma SameRest<T>(a: seq<T>, b: seq<T>)
    requires a != [] && b != [] && a[0] == b[0] && multiset(a) == multiset(b)
    ensures multiset(a[1..]) == multiset(b[1..])
  {
    assert a == [a[0]] + a[1..] && b == [b[0]] + b[1..];
    assert multiset(a[1..]) == multiset(a) - multiset{a[0]};
    assert multiset(b[1..]) == multiset(b) - multiset{b[0]};
  }

  /** There is one sorted arrangement of a multiset. */
  lemma {:induction false} SortedUnique(a: seq<real>, b: seq<real>)
    requires Sorted(a) && Sorted(b) && multiset(a) == multiset(b)
    ensures a == b
  {
    if a == [] {
      assert |multiset(b)| == |b|;
    } else {
      SameFirst(a, b);
      SameRest(a, b);
      SortedUnique(a[1..], b[1..]);
      assert a == [a[0]] + a[1..] && b == [b[0]] + b[1..];
    }
  }

  // ----- the percentile -----

  /** An index of a list of n elements, counted from the end when it is negative. */
  predicate IsIndex(n: nat, index: int) {
    0 <= n + index && index < n
  }

  function Item(s: seq<real>, index: int): real
    requires IsIndex(|s|, index)
  {
    if index < 0 then s[|s| + index] else s[index]
  }

  function Ceiling(x: real): int {
    -(-x).Floor
  }

  function Blend(a: real, b: real, fraction: real): real {
    a * (1.0 - fraction) + b * fraction
  }

  function Position(n: nat, quantile: real): real {
    (n - 1) as real * quantile
  }

  function ReadAt(ordered: seq<real>, position: real): Result<real, StatisticsError> {
    var lower, upper := position.Floor, Ceiling(position);
    if !IsIndex(|ordered|, lower) || !IsIndex(|ordered|, upper) then Err(IndexOutOfRange)
    else if lower == upper then Ok(Item(ordered, lower))
    else Ok(Blend(Item(ordered, lower), Item(ordered, upper), position - lower as real))
  }

  function Percentile(values: seq<real>, quantile: real): Result<real, StatisticsError> {
    var ordered := Sort(values);
    if ordered == [] then Err(NoValues) else ReadAt(ordered, Position(|ordered|, quantile))
  }

  /** The broken line through (0, s[0]), (1, s[1]), ..., read at `position`. */
  function Line(s: seq<real>, position: real): real
    requires s != [] && 0.0 <= position <= (|s| - 1) as real
  {
    var k := position.Floor;
    if position == k as real then s[k] else Blend(s[k], s[k + 1], position - k as real)
  }

  lemma CeilingOf(x: real)
    ensures Ceiling(x) == if x == x.Floor as real then x.Floor else x.Floor + 1
  {
  }

  lemma PositionInRange(n: nat, quantile: real)
    requires n > 0 && 0.0 <= quantile <= 1.0
    ensures 0.0 <= Position(n, quantile) <= (n - 1) as real
  {
    Scaled((n - 1) as real, 0.0, quantile);
    Scaled((n - 1) as real, quantile, 1.0);
  }

  lemma PositionMonotone(n: nat, p: real, q: real)
    requires n > 0 && p <= q
    ensures Position(n, p) <= Position(n, q)
  {
    Scaled((n - 1) as real, p, q);
  }

  lemma ReadIsLine(s: seq<real>, position: real)
    requires s != [] && 0.0 <= position <= (|s| - 1) as real
    ensures ReadAt(s, position) == Ok(Line(s, position))
  {
    CeilingOf(position);
  }

  /** Between 0 and 1 the percentile is a point of the line through the sorted values. */
  lemma PercentileIsOnLine(values: seq<real>, quantile: real)
    requires values != [] && 0.0 <= quantile <= 1.0
    ensures |Sort(values)| == |values| && Sorted(Sort(values))
    ensures 0.0 <= Position(|values|, quantile) <= (|values| - 1) as real
    ensures Percentile(values, quantile) == Ok(Line(Sort(values), Position(|values|, quantile)))
  {
    SortFacts(values);
    PositionInRange(|values|, quantile);
    ReadIsLine(Sort(values), Position(|values|, quantile));
  }

  lemma BlendBetween(a: real, b: real, fraction: real)
    requires a <= b && 0.0 <= fraction <= 1.0
    ensures a <= Blend(a, b, fraction) <= b
  {
    Scaled(b - a, 0.0, fraction);
    Scaled(b - a, fraction, 1.0);
    BlendIs(a, b, fraction);
  }

  lemma BlendIs(a: real, b: real, fraction: real)
    ensures Blend(a, b, fraction) == a + (b - a) * fraction
  {
  }

  lemma BlendMonotone(a: real, b: real, x: real, y: real)
    requires a <= b && x <= y
    ensures Blend(a, b, x) <= Blend(a, b, y)
  {
    Scaled(b - a, x, y);
    BlendIs(a, b, x);
    BlendIs(a, b, y);
  }

  /** The line stays between the two points around `position`. */
  lemma LineBetween(s: seq<real>, position: real)
    requires s != [] && Sorted(s) && 0.0 <= position <= (|s| - 1) as real
    ensures s[position.Floor] <= Line(s, position)
    ensures position.Floor + 1 < |s| ==> Line(s, position) <= s[position.Floor + 1]
  {
    var k := position.Floor;
    if position != k as real {
      BlendBetween(s[k], s[k + 1], position - k as real);
    }
  }

  lemma LineMonotone(s: seq<real>, x: real, y: real)
    requires s != [] && Sorted(s) && 0.0 <= x <= y <= (|s| - 1) as real
    ensures Line(s, x) <= Line(s, y)
  {
    LineBetween(s, x);
    LineBetween(s, y);
    var k := x.Floor;
    if y.Floor == k {
      if x != k as real {
        BlendMonotone(s[k], s[k + 1], x - k as real, y - k as real);
      }
    } else {
      assert k + 1 <= y.Floor;
      assert Line(s, x) <= s[k + 1] <= s[y.Floor];
    }
  }

  /**
  When the percentile is defined: there are values, and the position is one of the list, counted from
  its end when negative; every quantile from 0 to 1 gives one.
   */
  lemma PercentileDefinedIff(values: seq<real>, quantile: real)
    ensures Percentile(values, quantile) == Err(NoValues) <==> values == []
    ensures values != [] ==>
              (Percentile(values, quantile).Ok?
               <==> -(|values| as real) <= Position(|values|, quantile) <= (|values| - 1) as real)
    ensures values != [] && 0.0 <= quantile <= 1.0 ==> Percentile(values, quantile).Ok?
  {
    SortFacts(values);
    if values != [] {
      CeilingOf(Position(|values|, quantile));
      PositionsRead(|values|, Position(|values|, quantile));
    }
    if values != [] && 0.0 <= quantile <= 1.0 {
      PercentileIsOnLine(values, quantile);
    }
  }

  lemma PositionsRead(n: nat, position: real)
    ensures IsIndex(n, position.Floor) && IsIndex(n, Ceiling(position))
       <==> -(n as real) <= position <= (n - 1) as real
  {
    CeilingOf(position);
    assert position.Floor as real <= position < position.Floor as real + 1.0;
  }

  /** The order of the values does not matter. */
  lemma PercentileIgnoresOrder(a: seq<real>, b: seq<real>, quantile: real)
    requires multiset(a) == multiset(b)
    ensures Percentile(a, quantile) == Percentile(b, quantile)
  {
    SortFacts(a);
    SortFacts(b);
    SortedUnique(Sort(a), Sort(b));
  }

  lemma PercentileMonotone(values: seq<real>, p: real, q: real)
    requires values != [] && 0.0 <= p <= q <= 1.0
    ensures Percentile(values, p).Ok? && Percentile(values, q).Ok?
    ensures Percentile(values, p).value <= Percentile(values, q).value
  {
    PercentileIsOnLine(values, p);
    PercentileIsOnLine(values, q);
    PositionMonotone(|values|, p, q);
    LineMonotone(Sort(values), Position(|values|, p), Position(|values|, q));
  }

  // ----- minimum, maximum, median, mean -----

  function Minimum(values: seq<real>): real
    requires values != []
  {
    if |values| == 1 then values[0]
    else
      var rest := Minimum(values[1..]);
      if rest < values[0] then rest else values[0]
  }

  function Maximum(values: seq<real>): real
    requires values != []
  {
    if |values| == 1 then values[0]
    else
      var rest := Maximum(values[1..]);
      if rest > values[0] then rest else values[0]
  }

  lemma {:induction false} ExtremesBound(values: seq<real>)
    requires values != []
    ensures Minimum(values) in values && Maximum(values) in values
    ensures forall x | x in values :: Minimum(values) <= x <= Maximum(values)
  {
    if |values| > 1 {
      ExtremesBound(values[1..]);
      assert forall x | x in values :: x == values[0] || x in values[1..];
    }
  }

  lemma EndsOf(s: seq<real>, values: seq<real>)
    requires s != [] && Sorted(s) && multiset(s) == multiset(values)
    ensures values != [] && s[0] == Minimum(values) && s[|s| - 1] == Maximum(values)
  {
    var first, last := s[0], s[|s| - 1];
    assert first in multiset(values) && last in multiset(values);
    assert first in values && last in values;
    ExtremesBound(values);
    assert Minimum(values) in multiset(s) && Maximum(values) in multiset(s);
    var i :| 0 <= i < |s| && s[i] == Minimum(values);
    var j :| 0 <= j < |s| && s[j] == Maximum(values);
    assert first <= s[i] && s[j] <= last;
  }

  lemma SortedEnds(values: seq<real>)
    requires values != []
    ensures |Sort(values)| == |values|
    ensures Sort(values)[0] == Minimum(values) && Sort(values)[|values| - 1] == Maximum(values)
  {
    SortFacts(values);
    EndsOf(Sort(values), values);
  }

  /** The percentile runs from the minimum to the maximum. */
  lemma PercentileRange(values: seq<real>, quantile: real)
    requires values != [] && 0.0 <= quantile <= 1.0
    ensures Percentile(values, 0.0) == Ok(Minimum(values)) && Percentile(values, 1.0) == Ok(Maximum(values))
    ensures Percentile(values, quantile).Ok?
    ensures Minimum(values) <= Percentile(values, quantile).value <= Maximum(values)
  {
    SortedEnds(values);
    PercentileIsOnLine(values, 0.0);
    PercentileIsOnLine(values, 1.0);
    PercentileMonotone(values, 0.0, quantile);
    PercentileMonotone(values, quantile, 1.0);
  }

  /** The middle value, or the mean of the two middle values. */
  function Median(values: seq<real>): real
    requires values != []
  {
    SortFacts(values);
    var ordered := Sort(values);
    var half := |ordered| / 2;
    if |ordered| % 2 == 1 then ordered[half] else (ordered[half - 1] + ordered[half]) / 2.0
  }

  lemma PercentileIsMedian(values: seq<real>)
    requires values != []
    ensures Percentile(values, 0.5) == Ok(Median(values))
  {
    PercentileIsOnLine(values, 0.5);
    LineMiddle(Sort(values));
  }

  lemma LineMiddle(s: seq<real>)
    requires s != []
    ensures Line(s, Position(|s|, 0.5))
         == if |s| % 2 == 1 then s[|s| / 2] else (s[|s| / 2 - 1] + s[|s| / 2]) / 2.0
  {
    var position, k := Position(|s|, 0.5), (|s| - 1) / 2;
    assert position == k as real + if |s| % 2 == 1 then 0.0 else 0.5;
    assert position.Floor == k;
  }

  function Sum(values: seq<real>): real {
    if values == [] then 0.0 else values[0] + Sum(values[1..])
  }

  function Mean(values: seq<real>): real
    requires values != []
  {
    Sum(values) / |values| as real
  }

  lemma OneMoreAbove(low: real, n: real, sum: real, x: real)
    requires low * n <= sum && low <= x
    ensures low * (n + 1.0) <= x + sum
  {
    OneMore(low, n);
  }

  lemma OneMoreBelow(high: real, n: real, sum: real, x: real)
    requires sum <= high * n && x <= high
    ensures x + sum <= high * (n + 1.0)
  {
    OneMore(high, n);
  }

  lemma {:induction false} SumAtLeast(values: seq<real>, low: real, n: real)
    requires n == |values| as real && forall x | x in values :: low <= x
    ensures low * n <= Sum(values)
  {
    if values != [] {
      assert values[0] in values && forall x | x in values[1..] :: x in values;
      SumAtLeast(values[1..], low, n - 1.0);
      OneMoreAbove(low, n - 1.0, Sum(values[1..]), values[0]);
    }
  }

  lemma {:induction false} SumAtMost(values: seq<real>, high: real, n: real)
    requires n == |values| as real && forall x | x in values :: x <= high
    ensures Sum(values) <= high * n
  {
    if values != [] {
      assert values[0] in values && forall x | x in values[1..] :: x in values;
      SumAtMost(values[1..], high, n - 1.0);
      OneMoreBelow(high, n - 1.0, Sum(values[1..]), values[0]);
    }
  }

  lemma DivideBounds(sum: real, n: real, low: real, high: real)
    requires n > 0.0 && low * n <= sum <= high * n
    ensures low <= sum / n <= high
  {
    var mean := sum / n;
    assert n * mean == sum && low * n == n * low && high * n == n * high;
    if mean < low {
      StrictlyScaled(n, mean, low);
    }
    if high < mean {
      StrictlyScaled(n, high, mean);
    }
  }

  lemma MeanInRange(values: seq<real>)
    requires values != []
    ensures Minimum(values) <= Mean(values) <= Maximum(values)
  {
    ExtremesBound(values);
    SumAtLeast(values, Minimum(values), |values| as real);
    SumAtMost(values, Maximum(values), |values| as real);
    DivideBounds(Sum(values), |values| as real, Minimum(values), Maximum(values));
  }

  /** A percentile is the line through the sorted values, read at its position. */
  lemma PercentileIsLineAt(values: seq<real>, quantile: real, position: real)
    requires values != [] && 0.0 <= quantile <= 1.0 && position == (|values| - 1) as real * quantile
    ensures |Sort(values)| == |values| && 0.0 <= position <= (|values| - 1) as real
    ensures Percentile(values, quantile) == Ok(Line(Sort(values), position))
  {
    PercentileIsOnLine(values, quantile);
  }

  /** Between two ranks the line divides the two values in the proportion of the position. */
  lemma LineBetweenRanks(s: seq<real>, position: real, k: nat, fraction: real)
    requires k + 1 < |s| && 0.0 <= fraction < 1.0 && position == k as real + fraction
    ensures 0.0 <= position <= (|s| - 1) as real
    ensures Line(s, position) == s[k] + (s[k + 1] - s[k]) * fraction
  {
    LineAt(s, position, k, fraction);
    BlendIs(s[k], s[k + 1], fraction);
  }

  // ----- the summary -----

  datatype Summary = Summary(
    count: nat,
    mean: real,
    median: real,
    minimum: real,
    maximum: real,
    q1: real,
    q3: real,
    p5: real,
    p95: real,
    outliers: nat,
    lowFence: real,
    highFence: real)

  function Outliers(values: seq<real>, low: real, high: real): nat {
    if values == [] then 0
    else (if values[0] < low || values[0] > high then 1 else 0) + Outliers(values[1..], low, high)
  }

  function Summarize(values: seq<real>): Result<Summary, StatisticsError> {
    if values == [] then Err(NoValues)
    else
      PercentileDefinedIff(values, 0.25);
      PercentileDefinedIff(values, 0.75);
      PercentileDefinedIff(values, 0.05);
      PercentileDefinedIff(values, 0.95);
      var q1 := Percentile(values, 0.25).value;
      var q3 := Percentile(values, 0.75).value;
      var iqr := q3 - q1;
      var low, high := q1 - 1.5 * iqr, q3 + 1.5 * iqr;
      Ok(Summary(|values|, Mean(values), Median(values), Minimum(values), Maximum(values), q1, q3,
                 Percentile(values, 0.05).value, Percentile(values, 0.95).value,
                 Outliers(values, low, high), low, high))
  }

  lemma SummaryIsOrdered(values: seq<real>)
    requires values != []
    ensures Summarize(values).Ok?
    ensures var s := Summarize(values).value;
            && s.minimum <= s.p5 <= s.q1 <= s.median <= s.q3 <= s.p95 <= s.maximum
            && s.minimum <= s.mean <= s.maximum
            && s.lowFence <= s.q1 && s.q3 <= s.highFence
  {
    PercentileRange(values, 0.05);
    PercentileRange(values, 0.95);
    PercentileMonotone(values, 0.05, 0.25);
    PercentileMonotone(values, 0.25, 0.5);
    PercentileMonotone(values, 0.5, 0.75);
    PercentileMonotone(values, 0.75, 0.95);
    PercentileIsMedian(values);
    MeanInRange(values);
  }

  /** The count, the mean, the median and the extremes of a summary are those of its values. */
  lemma SummaryCentre(values: seq<real>, summary: Summary)
    requires Summarize(values) == Ok(summary)
    ensures summary.count == |values| && summary.mean == Mean(values) && summary.median == Median(values)
    ensures summary.minimum == Minimum(values) && summary.maximum == Maximum(values)
  {
  }

  /** Its tails are the percentiles of a twentieth and of nineteen twentieths. */
  lemma SummaryTails(values: seq<real>, summary: Summary)
    requires Summarize(values) == Ok(summary)
    ensures Percentile(values, 0.05) == Ok(summary.p5) && Percentile(values, 0.95) == Ok(summary.p95)
  {
    PercentileDefinedIff(values, 0.05);
    PercentileDefinedIff(values, 0.95);
  }

  lemma MeanTimesCount(values: seq<real>)
    requires values != []
    ensures Mean(values) * |values| as real == Sum(values)
  {
  }

  // ----- few values can be outliers -----

  function Below(s: seq<real>, limit: real): nat {
    if s == [] then 0 else (if s[0] < limit then 1 else 0) + Below(s[1..], limit)
  }

  function Above(s: seq<real>, limit: real): nat {
    if s == [] then 0 else (if s[0] > limit then 1 else 0) + Above(s[1..], limit)
  }

  lemma {:induction false} OutliersSplit(values: seq<real>, low: real, high: real)
    requires low <= high
    ensures Outliers(values, low, high) == Below(values, low) + Above(values, high)
  {
    if values != [] {
      OutliersSplit(values[1..], low, high);
    }
  }

  lemma {:induction false} InsertCounts(x: real, s: seq<real>, limit: real)
    ensures Below(Insert(x, s), limit) == Below(s, limit) + if x < limit then 1 else 0
    ensures Above(Insert(x, s), limit) == Above(s, limit) + if x > limit then 1 else 0
  {
    if s == [] || x <= s[0] {
      assert ([x] + s)[1..] == s;
    } else {
      InsertCounts(x, s[1..], limit);
      assert ([s[0]] + Insert(x, s[1..]))[1..] == Insert(x, s[1..]);
    }
  }

  lemma {:induction false} SortCounts(values: seq<real>, limit: real)
    ensures Below(Sort(values), limit) == Below(values, limit)
    ensures Above(Sort(values), limit) == Above(values, limit)
  {
    if values != [] {
      SortCounts(values[1..], limit);
      InsertCounts(values[0], Sort(values[1..]), limit);
    }
  }

  lemma {:induction false} BelowAtMost(s: seq<real>, k: nat, limit: real)
    requires k <= |s| && forall i | k <= i < |s| :: s[i] >= limit
    ensures Below(s, limit) <= k
  {
    if s != [] {
      BelowAtMost(s[1..], if k == 0 then 0 else k - 1, limit);
    }
  }

  lemma {:induction false} AboveAtMost(s: seq<real>, k: nat, limit: real)
    requires k <= |s| && forall i | 0 <= i < k :: s[i] <= limit
    ensures Above(s, limit) <= |s| - k
  {
    if s != [] {
      AboveAtMost(s[1..], if k == 0 then 0 else k - 1, limit);
    }
  }

  /** The quartiles of 4l + r + 1 sorted values as weighted means of neighbours. */
  predicate AreQuartiles(s: seq<real>, l: nat, r: nat, q1: real, q3: real)
    requires r < 4 && |s| == 4 * l + r + 1
  {
    match r
    case 0 => q1 == s[l] && q3 == s[3 * l]
    case 1 => q1 == 0.75 * s[l] + 0.25 * s[l + 1] && q3 == 0.25 * s[3 * l] + 0.75 * s[3 * l + 1]
    case 2 => q1 == 0.5 * s[l] + 0.5 * s[l + 1] && q3 == 0.5 * s[3 * l + 1] + 0.5 * s[3 * l + 2]
    case _ => q1 == 0.25 * s[l] + 0.75 * s[l + 1] && q3 == 0.75 * s[3 * l + 2] + 0.25 * s[3 * l + 3]
  }

  lemma QuartileLines(s: seq<real>, l: nat, r: nat, q1: real, q3: real)
    requires r < 4 && |s| == 4 * l + r + 1
    requires 0.0 <= Position(|s|, 0.25) && Position(|s|, 0.75) <= (|s| - 1) as real
    requires q1 == Line(s, Position(|s|, 0.25)) && q3 == Line(s, Position(|s|, 0.75))
    ensures AreQuartiles(s, l, r, q1, q3)
  {
    var a, b := Position(|s|, 0.25), Position(|s|, 0.75);
    match r {
      case 0 =>
        LineAt(s, a, l, 0.0);
        LineAt(s, b, 3 * l, 0.0);
      case 1 =>
        LineAt(s, a, l, 0.25);
        LineAt(s, b, 3 * l, 0.75);
      case 2 =>
        LineAt(s, a, l, 0.5);
        LineAt(s, b, 3 * l + 1, 0.5);
      case _ =>
        LineAt(s, a, l, 0.75);
        LineAt(s, b, 3 * l + 2, 0.25);
    }
  }

  lemma LineAt(s: seq<real>, position: real, k: nat, fraction: real)
    requires s != [] && position == k as real + fraction && 0.0 <= fraction < 1.0
    requires 0.0 <= position <= (|s| - 1) as real
    ensures k < |s| && (fraction > 0.0 ==> k + 1 < |s|)
    ensures Line(s, position) == if fraction == 0.0 then s[k] else Blend(s[k], s[k + 1], fraction)
  {
    assert position.Floor == k;
  }

  /** The value of rank k is not below the lower fence, and that of rank k from the top not above the upper. */
  lemma FencesHoldTheMiddle(s: seq<real>, l: nat, r: nat, k: nat, q1: real, q3: real, low: real, high: real)
    requires r < 4 && |s| == 4 * l + r + 1 && Sorted(s) && AreQuartiles(s, l, r, q1, q3)
    requires k == if r == 3 then l + 1 else l
    requires low == q1 - 1.5 * (q3 - q1) && high == q3 + 1.5 * (q3 - q1)
    ensures low <= s[k] && s[|s| - 1 - k] <= high
  {
    var top := |s| - 1 - k;
    if r == 0 {
      assert top == 3 * l && s[l] <= s[3 * l];
    } else if r == 1 {
      assert top == 3 * l + 1;
      Neighbours(s, l, 3 * l);
      FencesBetween(s[l], s[l + 1], s[3 * l], s[3 * l + 1], q1, q3);
    } else if r == 2 {
      assert top == 3 * l + 2;
      assert s[l] <= s[l + 1] <= s[3 * l + 1] <= s[3 * l + 2];
    } else {
      assert top == 3 * l + 2;
      assert s[l] <= s[l + 1] <= s[3 * l + 2] <= s[3 * l + 3];
    }
  }

  lemma Neighbours(s: seq<real>, i: nat, j: nat)
    requires Sorted(s) && i <= j && j + 1 < |s|
    ensures s[i] <= s[i + 1] && s[j] <= s[j + 1] && (i == j || s[i + 1] <= s[j])
  {
  }

  lemma FencesBetween(a: real, b: real, c: real, d: real, q1: real, q3: real)
    requires a <= b && c <= d && ((a == c && b == d) || b <= c)
    requires q1 == 0.75 * a + 0.25 * b && q3 == 0.25 * c + 0.75 * d
    ensures q1 - 1.5 * (q3 - q1) <= a && d <= q3 + 1.5 * (q3 - q1)
  {
  }

  lemma FewOutside(values: seq<real>, s: seq<real>, low: real, high: real, quarter: nat)
    requires s == Sort(values) && quarter < |s| && |s| == |values| && Sorted(s) && low <= high
    requires low <= s[quarter] && s[|s| - 1 - quarter] <= high
    ensures Below(values, low) <= quarter && Above(values, high) <= quarter
    ensures Outliers(values, low, high) <= 2 * quarter
  {
    BelowAtMost(s, quarter, low);
    AboveAtMost(s, |s| - quarter, high);
    SortCounts(values, low);
    SortCounts(values, high);
    OutliersSplit(values, low, high);
  }

  lemma Quarters(n: nat, l: nat, r: nat)
    requires n > 0 && l == (n - 1) / 4 && r == (n - 1) % 4
    ensures r < 4 && n == 4 * l + r + 1 && n / 4 == if r == 3 then l + 1 else l
  {
  }

  lemma LinesHoldTheMiddle(s: seq<real>, q1: real, q3: real)
    requires s != [] && Sorted(s)
    requires 0.0 <= Position(|s|, 0.25) && Position(|s|, 0.75) <= (|s| - 1) as real
    requires q1 == Line(s, Position(|s|, 0.25)) && q3 == Line(s, Position(|s|, 0.75))
    ensures q1 - 1.5 * (q3 - q1) <= s[|s| / 4]
    ensures s[|s| - 1 - |s| / 4] <= q3 + 1.5 * (q3 - q1)
  {
    var l, r := (|s| - 1) / 4, (|s| - 1) % 4;
    Quarters(|s|, l, r);
    QuartileLines(s, l, r, q1, q3);
    FencesHoldTheMiddle(s, l, r, |s| / 4, q1, q3, q1 - 1.5 * (q3 - q1), q3 + 1.5 * (q3 - q1));
  }

  lemma FencesOf(values: seq<real>, s: seq<real>, q1: real, q3: real)
    requires values != [] && s == Sort(values)
    requires Percentile(values, 0.25) == Ok(q1) && Percentile(values, 0.75) == Ok(q3)
    ensures |s| == |values| && Sorted(s) && q1 <= q3
    ensures q1 - 1.5 * (q3 - q1) <= s[|s| / 4]
    ensures s[|s| - 1 - |s| / 4] <= q3 + 1.5 * (q3 - q1)
  {
    PercentileMonotone(values, 0.25, 0.75);
    PercentileIsOnLine(values, 0.25);
    PercentileIsOnLine(values, 0.75);
    LinesHoldTheMiddle(s, q1, q3);
  }

  lemma SummaryFences(values: seq<real>, summary: Summary)
    requires Summarize(values) == Ok(summary)
    ensures Percentile(values, 0.25) == Ok(summary.q1) && Percentile(values, 0.75) == Ok(summary.q3)
    ensures summary.lowFence == summary.q1 - 1.5 * (summary.q3 - summary.q1)
    ensures summary.highFence == summary.q3 + 1.5 * (summary.q3 - summary.q1)
    ensures summary.outliers == Outliers(values, summary.lowFence, summary.highFence)
  {
    PercentileDefinedIff(values, 0.25);
    PercentileDefinedIff(values, 0.75);
  }

  lemma FewBeyondFences(values: seq<real>, q1: real, q3: real, low: real, high: real)
    requires values != [] && Percentile(values, 0.25) == Ok(q1) && Percentile(values, 0.75) == Ok(q3)
    requires low == q1 - 1.5 * (q3 - q1) && high == q3 + 1.5 * (q3 - q1)
    ensures Below(values, low) <= |values| / 4 && Above(values, high) <= |values| / 4
    ensures Outliers(values, low, high) <= 2 * (|values| / 4)
  {
    var s := Sort(values);
    FencesOf(values, s, q1, q3);
    FewOutside(values, s, low, high, |values| / 4);
  }

  /** At most a quarter of the values, rounded down, lies outside each fence. */
  lemma FewOutliers(values: seq<real>, summary: Summary)
    requires Summarize(values) == Ok(summary)
    ensures Below(values, summary.lowFence) <= |values| / 4
    ensures Above(values, summary.highFence) <= |values| / 4
    ensures summary.outliers <= 2 * (|values| / 4)
  {
    SummaryFences(values, summary);
    FewBeyondFences(values, summary.q1, summary.q3, summary.lowFence, summary.highFence);
  }

  // ----- bootstrap -----

  datatype Bootstrap = Bootstrap(sessions: nat, estimate: real, lower: real, upper: real)

  /** A resample: as many values as the original, each of them one of the original's. */
  predicate IsResample(sample: seq<real>, medians: seq<real>) {
    |sample| == |medians| && forall x | x in sample :: x in medians
  }

  predicate AreResamples(samples: seq<seq<real>>, medians: seq<real>) {
    forall i | 0 <= i < |samples| :: IsResample(samples[i], medians)
  }

  function Medians(samples: seq<seq<real>>, medians: seq<real>): seq<real>
    requires medians != [] && AreResamples(samples, medians)
  {
    seq(|samples|, i requires 0 <= i < |samples| => Median(samples[i]))
  }

  lemma MedianInRange(sample: seq<real>, medians: seq<real>)
    requires medians != [] && IsResample(sample, medians)
    ensures Minimum(medians) <= Median(sample) <= Maximum(medians)
  {
    PercentileIsMedian(sample);
    PercentileRange(sample, 0.5);
    ExtremesBound(sample);
    ExtremesBound(medians);
  }

  lemma IntervalInRange(samples: seq<seq<real>>, medians: seq<real>, low: real, high: real)
    requires medians != [] && samples != [] && AreResamples(samples, medians)
    requires 0.0 <= low <= high <= 1.0
    ensures var estimates := Medians(samples, medians);
            && Percentile(estimates, low).Ok? && Percentile(estimates, high).Ok?
            && Minimum(medians) <= Percentile(estimates, low).value
               <= Percentile(estimates, high).value <= Maximum(medians)
  {
    var estimates := Medians(samples, medians);
    forall i | 0 <= i < |samples|
      ensures Minimum(medians) <= estimates[i] <= Maximum(medians)
    {
      MedianInRange(samples[i], medians);
    }
    ExtremesBound(estimates);
    PercentileRange(estimates, low);
    PercentileRange(estimates, high);
    PercentileMonotone(estimates, low, high);
  }

  lemma MediansNext(samples: seq<seq<real>>, sample: seq<real>, medians: seq<real>)
    requires medians != [] && AreResamples(samples, medians) && IsResample(sample, medians)
    ensures AreResamples(samples + [sample], medians)
    ensures Medians(samples + [sample], medians) == Medians(samples, medians) + [Median(sample)]
  {
    var more := samples + [sample];
    assert forall i | 0 <= i < |samples| :: more[i] == samples[i];
    assert more[|samples|] == sample;
  }

  /** One draw with replacement; every choice of indices is possible. */
  method Resample(medians: seq<real>) returns (sample: seq<real>)
    requires medians != []
    ensures IsResample(sample, medians)
  {
    sample := [];
    while |sample| < |medians|
      invariant |sample| <= |medians|
      invariant forall x | x in sample :: x in medians
    {
      var choice: nat :| choice < |medians|;
      sample := sample + [medians[choice]];
    }
  }

  /**
  The percentile bootstrap, for every sequence of random choices: `samples` are the resamples drawn.
   */
  method BootstrapSessionMedians(medians: seq<real>, iterations: int)
    returns (r: Result<Bootstrap, StatisticsError>, ghost samples: seq<seq<real>>)
    ensures r.Ok? <==> medians != [] && iterations > 0
    ensures r.Err? ==> r.error == NoValues
    ensures r.Ok? ==> |samples| == iterations && AreResamples(samples, medians)
    ensures r.Ok? ==> r.value.sessions == |medians| && r.value.estimate == Median(medians)
    ensures r.Ok? ==> Percentile(Medians(samples, medians), 0.025) == Ok(r.value.lower)
    ensures r.Ok? ==> Percentile(Medians(samples, medians), 0.975) == Ok(r.value.upper)
    ensures r.Ok? ==> Minimum(medians) <= r.value.lower <= r.value.upper <= Maximum(medians)
    ensures r.Ok? ==> Minimum(medians) <= r.value.estimate <= Maximum(medians)
  {
    samples := [];
    if medians == [] {
      return Err(NoValues), samples;
    }
    var estimates: seq<real> := [];
    var done := 0;
    while done < iterations
      invariant done == 0 || 0 < done <= iterations
      invariant |samples| == done && AreResamples(samples, medians)
      invariant estimates == Medians(samples, medians)
    {
      var sample := Resample(medians);
      MediansNext(samples, sample, medians);
      samples := samples + [sample];
      estimates := estimates + [Median(sample)];
      done := done + 1;
    }
    var lower := Percentile(estimates, 0.025);
    if lower.Err? {
      PercentileDefinedIff(estimates, 0.025);
      return Err(NoValues), samples;
    }
    IntervalInRange(samples, medians, 0.025, 0.975);
    MedianInRange(medians, medians);
    var upper := Percentile(estimates, 0.975);
    r := Ok(Bootstrap(|medians|, Median(medians), lower.value, upper.value));
  }
}
