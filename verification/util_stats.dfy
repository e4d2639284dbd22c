/** Per-metric utilization statistics over a month of daily samples: the
    numeric values of a column, their mean, extremes, 90th and 95th
    percentiles (linear interpolation between order statistics, pandas'
    default), and the number and share of days below 20% and above 80%. */
module UtilStats {
  import opened Options
  import opened RealSeq

  /** Days below this utilization count as low-usage days. */
  const LowUsageThreshold: real := 20.0
  /** Days above this utilization count as high-usage days. */
  const HighUsageThreshold: real := 80.0

  /** The numbers of a column after `pd.to_numeric(errors='coerce').dropna()`:
      a cell is `None` when it is missing or does not convert to a number. */
  function Numeric(column: seq<Option<real>>): (values: seq<real>)
    ensures |values| <= |column|
    ensures values == [] <==> forall i :: 0 <= i < |column| ==> column[i].None?
    ensures forall i :: 0 <= i < |values| ==> Some(values[i]) in column
  {
    if column == [] then []
    else
      var rest := Numeric(column[1..]);
      assert forall i :: 1 <= i < |column| ==> column[i] == column[1..][i - 1];
      assert forall o :: o in column[1..] ==> o in column;
      if column[0].Some? then [column[0].value] + rest else rest
  }

  lemma {:induction false} NumericAppend(a: seq<Option<real>>, b: seq<Option<real>>)
    ensures Numeric(a + b) == Numeric(a) + Numeric(b)
  {
    if a == [] {
      assert a + b == b;
    } else {
      assert (a + b)[0] == a[0];
      assert (a + b)[1..] == a[1..] + b;
      NumericAppend(a[1..], b);
    }
  }

  ghost predicate Sorted(s: seq<real>) {
    forall i, j :: 0 <= i < j < |s| ==> s[i] <= s[j]
  }

  /** A value no greater than every element of a sorted sequence can be
      put in front of it. */
  lemma PrependSorted(h: real, s: seq<real>)
    requires Sorted(s)
    requires forall k :: 0 <= k < |s| ==> h <= s[k]
    ensures Sorted([h] + s)
  {
  }

  /** A bound on every element of a multiset bounds every element of a
      sequence holding that multiset. */
  lemma LowerBoundOfElements(h: real, s: seq<real>)
    requires forall y :: y in multiset(s) ==> h <= y
    ensures forall k :: 0 <= k < |s| ==> h <= s[k]
  {
    forall k | 0 <= k < |s|
      ensures h <= s[k]
    {
      assert s[k] in multiset(s);
    }
  }

  /** `x` placed into the sorted sequence `s`. */
  function Insert(x: real, s: seq<real>): (r: seq<real>)
    requires Sorted(s)
    ensures Sorted(r)
    ensures multiset(r) == multiset(s) + multiset{x}
  {
    if s == [] then [x]
    else if x <= s[0] then
      PrependSorted(x, s);
      [x] + s
    else
      var rest := Insert(x, s[1..]);
      assert s == [s[0]] + s[1..];
      assert forall y :: y in multiset(s[1..]) ==> s[0] <= y by {
        forall y | y in multiset(s[1..])
          ensures s[0] <= y
        {
          var k :| 0 <= k < |s[1..]| && s[1..][k] == y;
          assert s[0] <= s[k + 1];
        }
      }
      LowerBoundOfElements(s[0], rest);
      PrependSorted(s[0], rest);
      [s[0]] + rest
  }

  /** The values in ascending order. */
  function SortReals(xs: seq<real>): (r: seq<real>)
    ensures Sorted(r)
    ensures multiset(r) == multiset(xs)
  {
    if xs == [] then []
    else
      assert xs == [xs[0]] + xs[1..];
      Insert(xs[0], SortReals(xs[1..]))
  }

  /** The point a fraction `frac` of the way from `a` to `b`. */
  function Interpolate(a: real, b: real, frac: real): (v: real)
    requires a <= b && 0.0 <= frac <= 1.0
    ensures a <= v <= b
  {
    MulNonNegative(b - a, frac);
    MulMonotone(b - a, frac, 1.0);
    a + (b - a) * frac
  }

  lemma InterpolateMonotone(a: real, b: real, f1: real, f2: real)
    requires a <= b && 0.0 <= f1 <= f2 <= 1.0
    ensures Interpolate(a, b, f1) <= Interpolate(a, b, f2)
  {
    var d := f2 - f1;
    MulNonNegative(b - a, d);
    assert Interpolate(a, b, f2) == Interpolate(a, b, f1) + (b - a) * d;
  }

  /** The fractional position `m * q` of the `q`-quantile among order
      statistics numbered `0` to `m`. */
  function Position(m: real, q: real): (pos: real)
    requires 0.0 <= m && 0.0 <= q <= 1.0
    ensures 0.0 <= pos <= m
  {
    MulNonNegative(m, q);
    MulMonotone(m, q, 1.0);
    m * q
  }

  /** Among `n` order statistics, the floor of a position indexes one of
      them. */
  lemma PositionIndex(n: nat, q: real)
    requires n > 0 && 0.0 <= q <= 1.0
    ensures 0 <= Position((n - 1) as real, q).Floor < n
  {
    FloorWithin(Position((n - 1) as real, q), n - 1);
  }

  /** A higher quantile sits at a later position. */
  lemma PositionOrder(m: real, q1: real, q2: real)
    requires 0.0 <= m && 0.0 <= q1 <= q2 <= 1.0
    ensures Position(m, q1) <= Position(m, q2)
  {
    var d := q2 - q1;
    MulNonNegative(m, d);
    assert Position(m, q2) == Position(m, q1) + m * d;
  }

  /** A higher quantile sits at a later position, and at an index no
      smaller. */
  lemma PositionMonotone(m: real, q1: real, q2: real)
    requires 0.0 <= m && 0.0 <= q1 <= q2 <= 1.0
    ensures Position(m, q1) <= Position(m, q2)
    ensures Position(m, q1).Floor <= Position(m, q2).Floor
  {
    PositionOrder(m, q1, q2);
    FloorMonotone(Position(m, q1), Position(m, q2));
  }

  /** The `q`-quantile of sorted values with linear interpolation: the value
      at fractional position `(n - 1) * q` between neighbouring order
      statistics. It lies between the least and the greatest value. */
  function Quantile(s: seq<real>, q: real): (v: real)
    requires |s| > 0 && Sorted(s)
    requires 0.0 <= q <= 1.0
    ensures s[0] <= v <= s[|s| - 1]
  {
    var pos := Position((|s| - 1) as real, q);
    PositionIndex(|s|, q);
    var i := pos.Floor;
    assert s[0] <= s[i] <= s[|s| - 1];
    if i + 1 < |s| then
      assert s[i] <= s[i + 1] <= s[|s| - 1];
      Interpolate(s[i], s[i + 1], pos - i as real)
    else s[i]
  }

  /** A higher quantile is never below a lower one. */
  lemma QuantileMonotone(s: seq<real>, q1: real, q2: real)
    requires |s| > 0 && Sorted(s)
    requires 0.0 <= q1 <= q2 <= 1.0
    ensures Quantile(s, q1) <= Quantile(s, q2)
  {
    var m := (|s| - 1) as real;
    var pos1, pos2 := Position(m, q1), Position(m, q2);
    PositionIndex(|s|, q1);
    PositionIndex(|s|, q2);
    PositionMonotone(m, q1, q2);
    var i1, i2 := pos1.Floor, pos2.Floor;
    if i1 == i2 {
      if i1 + 1 < |s| {
        assert s[i1] <= s[i1 + 1];
        InterpolateMonotone(s[i1], s[i1 + 1], pos1 - i1 as real, pos2 - i2 as real);
      }
    } else {
      assert i1 + 1 <= i2;
      assert s[i1] <= s[i1 + 1] <= s[i2];
      if i2 + 1 < |s| {
        assert s[i2] <= s[i2 + 1];
      }
    }
  }

  /** How many values lie strictly below `t`. */
  function CountBelow(xs: seq<real>, t: real): (c: nat)
    ensures c <= |xs|
  {
    if xs == [] then 0 else (if xs[0] < t then 1 else 0) + CountBelow(xs[1..], t)
  }

  /** How many values lie strictly above `t`. */
  function CountAbove(xs: seq<real>, t: real): (c: nat)
    ensures c <= |xs|
  {
    if xs == [] then 0 else (if xs[0] > t then 1 else 0) + CountAbove(xs[1..], t)
  }

  /** No value is counted as both low and high when the low threshold does
      not exceed the high one. */
  lemma {:induction false} LowAndHighDisjoint(xs: seq<real>, lo: real, hi: real)
    requires lo <= hi
    ensures CountBelow(xs, lo) + CountAbove(xs, hi) <= |xs|
  {
    if xs != [] {
      LowAndHighDisjoint(xs[1..], lo, hi);
    }
  }

  /** `CountBelow` is zero exactly when no value is below `t`, and counts
      every value exactly when all are below it. */
  lemma {:induction false} CountBelowExtremes(xs: seq<real>, t: real)
    ensures CountBelow(xs, t) == 0 <==> forall i :: 0 <= i < |xs| ==> xs[i] >= t
    ensures CountBelow(xs, t) == |xs| <==> forall i :: 0 <= i < |xs| ==> xs[i] < t
  {
    if xs != [] {
      CountBelowExtremes(xs[1..], t);
      assert forall i :: 1 <= i < |xs| ==> xs[i] == xs[1..][i - 1];
    }
  }

  /** `CountAbove` is zero exactly when no value is above `t`, and counts
      every value exactly when all are above it. */
  lemma {:induction false} CountAboveExtremes(xs: seq<real>, t: real)
    ensures CountAbove(xs, t) == 0 <==> forall i :: 0 <= i < |xs| ==> xs[i] <= t
    ensures CountAbove(xs, t) == |xs| <==> forall i :: 0 <= i < |xs| ==> xs[i] > t
  {
    if xs != [] {
      CountAboveExtremes(xs[1..], t);
      assert forall i :: 1 <= i < |xs| ==> xs[i] == xs[1..][i - 1];
    }
  }

  /** Every element of a sorted sequence lies between its first and last. */
  lemma WithinSortedEnds(s: seq<real>, y: real)
    requires Sorted(s) && y in s
    ensures s[0] <= y <= s[|s| - 1]
  {
    var j :| 0 <= j < |s| && s[j] == y;
    assert s[0] <= s[j] <= s[|s| - 1];
  }

  /** The first and last of the sorted values are the least and the
      greatest value. */
  lemma SortedExtremes(values: seq<real>)
    requires |values| > 0
    ensures |SortReals(values)| == |values|
    ensures SortReals(values)[0] in values && SortReals(values)[|values| - 1] in values
    ensures forall i :: 0 <= i < |values| ==>
              SortReals(values)[0] <= values[i] <= SortReals(values)[|values| - 1]
  {
    var sorted := SortReals(values);
    var n := |values|;
    assert |sorted| == n by {
      assert |multiset(sorted)| == |multiset(values)|;
    }
    assert sorted[0] in values by {
      assert sorted[0] in multiset(sorted);
    }
    assert sorted[n - 1] in values by {
      assert sorted[n - 1] in multiset(sorted);
    }
    forall i | 0 <= i < n
      ensures sorted[0] <= values[i] <= sorted[n - 1]
    {
      assert values[i] in multiset(values);
      WithinSortedEnds(sorted, values[i]);
    }
  }

  /** `count` out of `total` as a percentage. */
  function Percentage(count: nat, total: nat): (pct: real)
    requires count <= total && total > 0
    ensures 0.0 <= pct <= 100.0
  {
    assert (count as real) / (total as real) <= 1.0;
    (count as real) / (total as real) * 100.0
  }

  /** Two shares of disjoint parts of the same total add up to at most 100%. */
  lemma PercentagesOfDisjointParts(low: nat, high: nat, total: nat)
    requires low + high <= total && total > 0
    ensures Percentage(low, total) + Percentage(high, total) <= 100.0
  {
    SharesAdd(low as real, high as real, total as real);
    assert (low + high) as real == low as real + high as real;
    assert Percentage(low + high, total) <= 100.0;
  }

  /** A share is 100% exactly when the count is the total, and 0% exactly
      when the count is zero. */
  lemma PercentageExtremes(count: nat, total: nat)
    requires count <= total && total > 0
    ensures Percentage(count, total) == 100.0 <==> count == total
    ensures Percentage(count, total) == 0.0 <==> count == 0
  {
    ShareExtremes(count as real, total as real);
  }

  /** The statistics dictionary of one metric. A column without any number
      yields the short dictionary `NoValues`, whose six keys (average,
      extremes, percentiles, low-usage days) are all 0 and which has no
      high-usage days, total or percentages at all. */
  datatype UtilizationStats =
    | NoValues
    | Stats(avg: real, max: real, min: real, p95: real, p90: real,
            lowUsageDays: nat, highUsageDays: nat, totalDays: nat,
            lowUsagePercentage: real, highUsagePercentage: real)
  {
    /** The `'avg'` entry, 0 in the short dictionary. */
    function Avg(): real {
      if NoValues? then 0.0 else avg
    }

    /** The `'p95'` entry, 0 in the short dictionary. */
    function P95(): real {
      if NoValues? then 0.0 else p95
    }

    /** The `'low_usage_percentage'` entry; `None` where the dictionary has
        no such key. */
    function LowUsage(): Option<real> {
      if NoValues? then None else Some(lowUsagePercentage)
    }

    /** The `'high_usage_percentage'` entry; `None` where the dictionary has
        no such key. */
    function HighUsage(): Option<real> {
      if NoValues? then None else Some(highUsagePercentage)
    }
  }

  /** The full statistics of a non-empty set of numbers (rounding aside). */
  function StatsOf(values: seq<real>): (st: UtilizationStats)
    requires values != []
    ensures st.Stats?
  {
    var sorted := SortReals(values);
    var n := |values|;
    SortedExtremes(values);
    var low, high := CountBelow(values, LowUsageThreshold), CountAbove(values, HighUsageThreshold);
    Stats(Mean(values), sorted[n - 1], sorted[0], Quantile(sorted, 0.95), Quantile(sorted, 0.90),
          low, high, n, Percentage(low, n), Percentage(high, n))
  }

  /** The figures of `st` are the mean, the 90th and 95th percentiles and
      the count of `values`. */
  ghost predicate FiguresOf(st: UtilizationStats, values: seq<real>) {
    && st.Stats?
    && st.totalDays == |values| > 0
    && st.avg == Mean(values)
    && st.p95 == Quantile(SortReals(values), 0.95)
    && st.p90 == Quantile(SortReals(values), 0.90)
  }

  /** The extremes of `st` are the least and greatest of `values`, and the
      mean and both percentiles lie between them with p90 not above p95. */
  ghost predicate OrderOf(st: UtilizationStats, values: seq<real>) {
    && st.Stats?
    && st.min in values && st.max in values
    && (forall i :: 0 <= i < |values| ==> st.min <= values[i] <= st.max)
    && st.min <= st.avg <= st.max
    && st.min <= st.p90 <= st.p95 <= st.max
  }

  /** The low- and high-usage days of `st` are the values below 20 and above
      80; they are disjoint, and their shares of the total are percentages
      adding up to at most 100. */
  ghost predicate DaysOf(st: UtilizationStats, values: seq<real>) {
    && st.Stats?
    && st.totalDays == |values| > 0
    && st.lowUsageDays == CountBelow(values, LowUsageThreshold)
    && st.highUsageDays == CountAbove(values, HighUsageThreshold)
    && st.lowUsageDays + st.highUsageDays <= st.totalDays
    && st.lowUsagePercentage == Percentage(st.lowUsageDays, st.totalDays)
    && st.highUsagePercentage == Percentage(st.highUsageDays, st.totalDays)
    && 0.0 <= st.lowUsagePercentage <= 100.0
    && 0.0 <= st.highUsagePercentage <= 100.0
    && st.lowUsagePercentage + st.highUsagePercentage <= 100.0
  }

  lemma StatsFigures(values: seq<real>)
    requires values != []
    ensures FiguresOf(StatsOf(values), values)
  {
    SortedExtremes(values);
  }

  lemma StatsOrder(values: seq<real>)
    requires values != []
    ensures OrderOf(StatsOf(values), values)
  {
    var st := StatsOf(values);
    var sorted := SortReals(values);
    var n := |values|;
    SortedExtremes(values);
    assert st.min == sorted[0] && st.max == sorted[n - 1];
    assert st.p90 == Quantile(sorted, 0.90) && st.p95 == Quantile(sorted, 0.95);
    QuantileMonotone(sorted, 0.90, 0.95);
    assert st.avg == Mean(values);
    MeanBounds(values, sorted[0], sorted[n - 1]);
  }

  lemma StatsDays(values: seq<real>)
    requires values != []
    ensures DaysOf(StatsOf(values), values)
  {
    SortedExtremes(values);
    LowAndHighDisjoint(values, LowUsageThreshold, HighUsageThreshold);
    PercentagesOfDisjointParts(CountBelow(values, LowUsageThreshold),
                               CountAbove(values, HighUsageThreshold), |values|);
  }

  /** `_calculate_utilization_stats` on one column (rounding aside): the
      short dictionary exactly when the column holds no number, otherwise
      the figures, order statistics and usage days of its numbers. */
  function Calculate(column: seq<Option<real>>): (st: UtilizationStats)
    ensures st.NoValues? <==> forall i :: 0 <= i < |column| ==> column[i].None?
    ensures st.Stats? ==>
      && FiguresOf(st, Numeric(column))
      && OrderOf(st, Numeric(column))
      && DaysOf(st, Numeric(column))
  {
    var values := Numeric(column);
    if values == [] then NoValues
    else
      StatsFigures(values);
      StatsOrder(values);
      StatsDays(values);
      StatsOf(values)
  }

  /** Every day is a low-usage day exactly when the low-usage share is
      100%, and none is exactly when it is 0%; likewise for the high-usage
      share. */
  lemma SharesAtTheExtremes(st: UtilizationStats, values: seq<real>)
    requires DaysOf(st, values)
    ensures st.lowUsagePercentage == 100.0 <==> forall i :: 0 <= i < |values| ==> values[i] < LowUsageThreshold
    ensures st.lowUsagePercentage == 0.0 <==> forall i :: 0 <= i < |values| ==> values[i] >= LowUsageThreshold
    ensures st.highUsagePercentage == 100.0 <==> forall i :: 0 <= i < |values| ==> values[i] > HighUsageThreshold
    ensures st.highUsagePercentage == 0.0 <==> forall i :: 0 <= i < |values| ==> values[i] <= HighUsageThreshold
  {
    PercentageExtremes(st.lowUsageDays, st.totalDays);
    PercentageExtremes(st.highUsageDays, st.totalDays);
    CountBelowExtremes(values, LowUsageThreshold);
    CountAboveExtremes(values, HighUsageThreshold);
  }
}
