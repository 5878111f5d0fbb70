/**
  Bootstrap confidence intervals: resampling with replacement, sorting the statistics of
  the resamples, and reading off two percentiles by linear interpolation.

  The random draws are an input: draw(i, k) is the index drawn for place k of resample i.
  Numbers are exact reals.
 */
module Bootstrap {
  import opened Prelude
  import Sorting

  datatype Error = UnknownStatistic | IndexError

  datatype Interval = Interval(low: real, high: real)

  type Draw = (nat, nat) -> int

  ghost predicate DrawsFrom(draw: Draw, n: nat) {
    forall i, k :: 0 <= draw(i, k) < n
  }

  // ---------- order ----------

  predicate IsSorted(xs: seq<real>) {
    forall j, k :: 0 <= j <= k < |xs| ==> xs[j] <= xs[k]
  }

  predicate AtMost(a: real, b: real) {
    a <= b
  }

  function Sorted(xs: seq<real>): (r: seq<real>)
    ensures |r| == |xs|
  {
    Sorting.Sorted(xs, AtMost)
  }

  lemma SortedSorts(xs: seq<real>)
    ensures IsSorted(Sorted(xs)) && multiset(Sorted(xs)) == multiset(xs)
  {
    Sorting.SortedSorts(xs, AtMost);
    Sorting.SortedPermutes(xs, AtMost);
    var sorted := Sorted(xs);
    assert forall j, k :: 0 <= j < k < |xs| ==> AtMost(sorted[j], sorted[k]);
  }

  // ---------- statistics ----------

  function Mean(xs: seq<real>): real
    requires xs != []
  {
    Sum(xs) / |xs| as real
  }

  function Median(xs: seq<real>): real
    requires xs != []
  {
    var sorted, mid := Sorted(xs), |xs| / 2;
    if |xs| % 2 == 1 then sorted[mid] else (sorted[mid - 1] + sorted[mid]) / 2.0
  }

  function Statistic(kind: string, xs: seq<real>): Option<real>
    requires xs != []
  {
    if kind == "mean" then Some(Mean(xs))
    else if kind == "median" then Some(Median(xs))
    else None
  }

  /** Which statistics there are. */
  lemma StatisticsExactly(kind: string, xs: seq<real>)
    requires xs != []
    ensures Statistic(kind, xs) ==
      if kind == "mean" then Some(Mean(xs)) else if kind == "median" then Some(Median(xs)) else None
    ensures Statistic(kind, xs).Some? <==> Known(kind)
  {}

  predicate Within(xs: seq<real>, low: real, high: real) {
    forall k :: 0 <= k < |xs| ==> low <= xs[k] <= high
  }

  lemma {:induction false} SumWithin(xs: seq<real>, low: real, high: real)
    requires Within(xs, low, high)
    ensures low * |xs| as real <= Sum(xs) <= high * |xs| as real
  {
    if xs != [] {
      SumWithin(xs[..|xs| - 1], low, high);
      OneMoreTerm(low, |xs| - 1);
      OneMoreTerm(high, |xs| - 1);
    }
  }

  lemma OneMoreTerm(x: real, n: nat)
    ensures x * (n + 1) as real == x * n as real + x
  {
    assert (n + 1) as real == n as real + 1.0;
  }

  lemma MeanWithin(xs: seq<real>, low: real, high: real)
    requires xs != [] && Within(xs, low, high)
    ensures low <= Mean(xs) <= high
  {
    SumWithin(xs, low, high);
    QuotientWithin(Sum(xs), |xs| as real, low, high);
  }

  lemma QuotientWithin(sum: real, n: real, low: real, high: real)
    requires n > 0.0 && low * n <= sum <= high * n
    ensures low <= sum / n <= high
  {
    var q := sum / n;
    assert q * n == sum;
    assert q < low ==> q * n < low * n;
    assert q > high ==> q * n > high * n;
  }

  // How far each value lies from a point.
  function Deviations(xs: seq<real>, m: real): (ds: seq<real>)
    ensures |ds| == |xs|
  {
    seq(|xs|, k requires 0 <= k < |xs| => xs[k] - m)
  }

  lemma {:induction false} SumOfDeviations(xs: seq<real>, m: real)
    ensures Sum(Deviations(xs, m)) == Sum(xs) - m * |xs| as real
  {
    if xs == [] {
    } else {
      var init := xs[..|xs| - 1];
      SumOfDeviations(init, m);
      assert Deviations(xs, m)[..|xs| - 1] == Deviations(init, m);
      OneMoreTerm(m, |init|);
    }
  }

  /** The mean is the one point from which the values deviate by nothing on the whole. */
  lemma MeanBalancesExactly(xs: seq<real>, m: real)
    requires xs != []
    ensures m == Mean(xs) <==> Sum(Deviations(xs, m)) == 0.0
  {
    SumOfDeviations(xs, m);
    QuotientExactly(Sum(xs), |xs| as real, m);
  }

  lemma QuotientExactly(a: real, n: real, q: real)
    requires n > 0.0
    ensures q == a / n <==> a == q * n
  {
    assert (a / n) * n == a;
    if a == q * n {
      assert (q - a / n) * n == 0.0;
    }
  }

  lemma MedianWithin(xs: seq<real>, low: real, high: real)
    requires xs != [] && Within(xs, low, high)
    ensures low <= Median(xs) <= high
  {
    SortedSorts(xs);
    var sorted := Sorted(xs);
    forall k | 0 <= k < |sorted| ensures low <= sorted[k] <= high {
      assert sorted[k] in multiset(xs);
    }
  }

  /** The median has as many values on either side: of the sorted values, those of the
      lower half are at most the median, those of the upper half at least. */
  lemma MedianIsMiddle(xs: seq<real>, k: nat)
    requires xs != [] && 2 * k < |xs|
    ensures Sorted(xs)[k] <= Median(xs) <= Sorted(xs)[|xs| - 1 - k]
  {
    SortedSorts(xs);
  }

  // ---------- percentiles ----------

  // Conversion to an integer drops the fraction, towards zero.
  function Truncated(x: real): int {
    if x >= 0.0 then x.Floor else -((-x).Floor)
  }

  // List indexing: negative indices count from the end, and others are refused.
  function At(xs: seq<real>, k: int): Option<real> {
    if 0 <= k < |xs| then Some(xs[k])
    else if -|xs| <= k < 0 then Some(xs[|xs| + k])
    else None
  }

  function Mixture(a: real, b: real, frac: real): real {
    a * (1.0 - frac) + b * frac
  }

  function Percentile(xs: seq<real>, place: real): Option<real> {
    var floor := Truncated(place);
    match (At(xs, floor), At(xs, Min(floor + 1, |xs| - 1)))
    case (Some(a), Some(b)) => Some(Mixture(a, b, place - floor as real))
    case _ => None
  }

  function Alpha(confidence: real): real {
    (1.0 - confidence) / 2.0
  }

  // Where the two percentiles lie among the statistics.
  function LowPlace(n: int, confidence: real): real {
    Alpha(confidence) * (n - 1) as real
  }

  function HighPlace(n: int, confidence: real): real {
    (1.0 - Alpha(confidence)) * (n - 1) as real
  }

  function Percentiles(stats: seq<real>, place: real, later: real): Result<Interval, Error> {
    match (Percentile(stats, place), Percentile(stats, later))
    case (Some(low), Some(high)) => Ok(Interval(low, high))
    case _ => Err(IndexError)
  }

  // ---------- the interval ----------

  function Resample(sample: seq<real>, draw: Draw, i: nat): (r: seq<real>)
    requires DrawsFrom(draw, |sample|)
    ensures |r| == |sample| && forall k :: 0 <= k < |r| ==> r[k] in sample
  {
    seq(|sample|, k requires 0 <= k => sample[draw(i, k)])
  }

  predicate Known(kind: string) {
    kind == "mean" || kind == "median"
  }

  // The statistics of the first n resamples.
  function Statistics(sample: seq<real>, kind: string, draw: Draw, n: nat): (r: seq<real>)
    requires sample != [] && DrawsFrom(draw, |sample|) && Known(kind)
    ensures |r| == n
  {
    seq(n, i requires 0 <= i => Statistic(kind, Resample(sample, draw, i)).value)
  }

  function Expected(sample: seq<real>, kind: string, resamples: int, confidence: real, draw: Draw): Result<Interval, Error>
    requires sample != [] ==> DrawsFrom(draw, |sample|)
  {
    if sample == [] then Ok(Interval(0.0, 0.0))
    else if resamples <= 0 then Err(IndexError)
    else if !Known(kind) then Err(UnknownStatistic)
    else 
      Percentiles(Sorted(Statistics(sample, kind, draw, resamples)),
        LowPlace(resamples, confidence), HighPlace(resamples, confidence))
  }

  /** The interval of a sample. The statistic is looked at only while resampling, so with
      no resamples an unknown one is not noticed before the percentiles fail. */
  method BootstrapCi(sample: seq<real>, kind: string, resamples: int, confidence: real, draw: Draw)
    returns (r: Result<Interval, Error>)
    requires sample != [] ==> DrawsFrom(draw, |sample|)
    ensures r == Expected(sample, kind, resamples, confidence, draw)
    ensures sample != [] && resamples >= 1 && Known(kind) && 0.0 <= confidence <= 1.0 ==>
      r.Ok? && Least(sample) <= r.value.low <= r.value.high <= Greatest(sample)
  {
    if sample == [] {
      return Ok(Interval(0.0, 0.0));
    }
    var stats: seq<real> := [];
    for i := 0 to Max(resamples, 0)
      invariant |stats| == i
      invariant Known(kind) ==> stats == Statistics(sample, kind, draw, i)
      invariant !Known(kind) ==> i == 0
    {
      var statistic := Statistic(kind, Resample(sample, draw, i));
      if statistic == None {
        return Err(UnknownStatistic);
      }
      stats := stats + [statistic.value];
    }
    stats := Sorted(stats);
    r := Percentiles(stats, LowPlace(resamples, confidence), HighPlace(resamples, confidence));
    if resamples >= 1 && 0.0 <= confidence <= 1.0 {
      IntervalIsBounded(sample, kind, resamples, confidence, draw);
    }
  }

  // ---------- bounds ----------

  function Least(xs: seq<real>): real
    requires xs != []
  {
    if |xs| == 1 || xs[0] <= Least(xs[1..]) then xs[0] else Least(xs[1..])
  }

  function Greatest(xs: seq<real>): real
    requires xs != []
  {
    if |xs| == 1 || xs[0] >= Greatest(xs[1..]) then xs[0] else Greatest(xs[1..])
  }

  lemma {:induction false} ExtremesBound(xs: seq<real>)
    requires xs != []
    ensures Within(xs, Least(xs), Greatest(xs))
    ensures Least(xs) in xs && Greatest(xs) in xs
  {
    if |xs| > 1 {
      ExtremesBound(xs[1..]);
      assert xs == [xs[0]] + xs[1..];
    }
  }

  lemma StatisticsWithin(sample: seq<real>, kind: string, draw: Draw, n: nat, low: real, high: real)
    requires sample != [] && DrawsFrom(draw, |sample|) && Known(kind) && Within(sample, low, high)
    ensures Within(Statistics(sample, kind, draw, n), low, high)
  {
    forall i | 0 <= i < n ensures low <= Statistics(sample, kind, draw, n)[i] <= high {
      MeanWithin(Resample(sample, draw, i), low, high);
      MedianWithin(Resample(sample, draw, i), low, high);
    }
  }

  lemma SortedWithin(xs: seq<real>, low: real, high: real)
    requires Within(xs, low, high)
    ensures Within(Sorted(xs), low, high)
  {
    SortedSorts(xs);
    forall k | 0 <= k < |xs| ensures low <= Sorted(xs)[k] <= high {
      assert Sorted(xs)[k] in multiset(xs);
    }
  }

  lemma MixtureWithin(a: real, b: real, frac: real)
    requires a <= b && 0.0 <= frac <= 1.0
    ensures a <= Mixture(a, b, frac) <= b
  {
    var gap := b - a;
    assert Mixture(a, b, frac) == a + gap * frac;
    ProductIsNotNegative(gap, frac);
    ProductIsNotNegative(gap, 1.0 - frac);
    assert gap * (1.0 - frac) == gap - gap * frac;
  }

  lemma ProductIsNotNegative(a: real, b: real)
    requires a >= 0.0 && b >= 0.0
    ensures a * b >= 0.0
  {
  }

  lemma MixtureGrows(a: real, b: real, frac: real, more: real)
    requires a <= b && frac <= more
    ensures Mixture(a, b, frac) <= Mixture(a, b, more)
  {
    assert Mixture(a, b, more) - Mixture(a, b, frac) == (b - a) * (more - frac);
    assert (b - a) * (more - frac) >= 0.0;
  }

  /** A place within the list lies between two neighbouring entries, so does its percentile. */
  lemma PercentileInRange(xs: seq<real>, place: real)
    requires IsSorted(xs) && 0.0 <= place <= (|xs| - 1) as real
    ensures 0 <= place.Floor < |xs| && Percentile(xs, place).Some?
    ensures xs[place.Floor] <= Percentile(xs, place).value <= xs[Min(place.Floor + 1, |xs| - 1)]
  {
    var k := place.Floor;
    assert k as real <= place < (k + 1) as real;
    MixtureWithin(xs[k], xs[Min(k + 1, |xs| - 1)], place - k as real);
  }

  /** Percentiles grow with their place. */
  lemma PercentileGrows(xs: seq<real>, place: real, later: real)
    requires IsSorted(xs) && 0.0 <= place <= later <= (|xs| - 1) as real
    ensures Percentile(xs, place).Some? && Percentile(xs, later).Some?
    ensures Percentile(xs, place).value <= Percentile(xs, later).value
  {
    PercentileInRange(xs, place);
    PercentileInRange(xs, later);
    var j, k := place.Floor, later.Floor;
    if j == k {
      MixtureGrows(xs[k], xs[Min(k + 1, |xs| - 1)], place - k as real, later - k as real);
    } else {
      assert j + 1 <= k;
      assert xs[Min(j + 1, |xs| - 1)] <= xs[k];
    }
  }

  /** At a whole number the percentile is the entry itself. */
  lemma PercentileAtEntry(xs: seq<real>, k: nat)
    requires k < |xs|
    ensures Percentile(xs, k as real) == Some(xs[k])
  {
    assert (k as real).Floor == k;
  }

  /** Between two entries it is their mixture, by how far the place lies from each. */
  lemma PercentileInterpolates(xs: seq<real>, k: nat, frac: real)
    requires k + 1 < |xs| && 0.0 <= frac < 1.0
    ensures Percentile(xs, k as real + frac) == Some(Mixture(xs[k], xs[k + 1], frac))
    ensures Mixture(xs[k], xs[k + 1], frac) == xs[k] + (xs[k + 1] - xs[k]) * frac
  {
    assert (k as real + frac).Floor == k;
    MixtureIs(xs[k], xs[k + 1], frac);
  }

  lemma MixtureIs(a: real, b: real, frac: real)
    ensures Mixture(a, b, frac) == a + (b - a) * frac
  {}

  /** A negative index counts from the end, and one beyond either end is refused. */
  lemma IndexExactly(xs: seq<real>, k: int)
    ensures At(xs, k).Some? <==> -|xs| <= k < |xs|
    ensures 0 <= k < |xs| ==> At(xs, k) == Some(xs[k])
    ensures -|xs| <= k < 0 ==> At(xs, k) == Some(xs[|xs| + k])
  {}

  /** When there is no interval, and the interval of nothing. */
  lemma RefusedFor(sample: seq<real>, kind: string, resamples: int, confidence: real, draw: Draw)
    requires sample != [] ==> DrawsFrom(draw, |sample|)
    ensures var r := Expected(sample, kind, resamples, confidence, draw);
            && (sample == [] ==> r == Ok(Interval(0.0, 0.0)))
            && (sample != [] && resamples <= 0 ==> r == Err(IndexError))
            && (sample != [] && resamples > 0 ==> (r == Err(UnknownStatistic) <==> kind != "mean" && kind != "median"))
  {}

  lemma PercentilesInOrder(xs: seq<real>, place: real, later: real, low: real, high: real)
    requires IsSorted(xs) && 0.0 <= place <= later <= (|xs| - 1) as real && Within(xs, low, high)
    ensures var r := Percentiles(xs, place, later); r.Ok? && low <= r.value.low <= r.value.high <= high
  {
    PercentileInRange(xs, place);
    PercentileInRange(xs, later);
    PercentileGrows(xs, place, later);
  }

  lemma PercentilesWiden(xs: seq<real>, first: real, place: real, later: real, last: real)
    requires IsSorted(xs) && 0.0 <= first <= place <= later <= last <= (|xs| - 1) as real
    ensures var r, wider := Percentiles(xs, place, later), Percentiles(xs, first, last);
      r.Ok? && wider.Ok? && wider.value.low <= r.value.low && r.value.high <= wider.value.high
  {
    PercentileGrows(xs, first, place);
    PercentileGrows(xs, later, last);
  }

  // Confidence between 0 and 1 puts both places inside the list, in order.
  lemma PlacesInOrder(n: int, confidence: real)
    requires n >= 1 && 0.0 <= confidence <= 1.0
    ensures 0.0 <= LowPlace(n, confidence) <= HighPlace(n, confidence) <= (n - 1) as real
  {
    var a, last := Alpha(confidence), (n - 1) as real;
    ProductIsNotNegative(a, last);
    ProductIsNotNegative(1.0 - 2.0 * a, last);
    assert (1.0 - a) * last - a * last == (1.0 - 2.0 * a) * last;
    assert last - (1.0 - a) * last == a * last;
  }

  /** The two places cut off the same at both ends, and the part between them is the share
      given by the confidence. */
  lemma PlacesSpanConfidence(n: int, confidence: real)
    ensures LowPlace(n, confidence) + HighPlace(n, confidence) == (n - 1) as real
    ensures HighPlace(n, confidence) - LowPlace(n, confidence) == confidence * (n - 1) as real
  {
    var a, last := Alpha(confidence), (n - 1) as real;
    assert a * last + (1.0 - a) * last == last;
    assert (1.0 - a) * last - a * last == (1.0 - 2.0 * a) * last;
    assert 1.0 - 2.0 * a == confidence;
  }

  lemma PlacesSpread(n: int, confidence: real, more: real)
    requires n >= 1 && confidence <= more
    ensures LowPlace(n, more) <= LowPlace(n, confidence) && HighPlace(n, confidence) <= HighPlace(n, more)
  {
    var a, b, last := Alpha(confidence), Alpha(more), (n - 1) as real;
    assert (a - b) * last >= 0.0;
    assert a * last - b * last == (a - b) * last;
    assert (1.0 - b) * last - (1.0 - a) * last == (a - b) * last;
  }

  /** Whatever is drawn, the interval is ordered and lies within the sample. */
  lemma IntervalIsBounded(sample: seq<real>, kind: string, resamples: int, confidence: real, draw: Draw)
    requires sample != [] && DrawsFrom(draw, |sample|) && Known(kind)
    requires resamples >= 1 && 0.0 <= confidence <= 1.0
    ensures var r := Expected(sample, kind, resamples, confidence, draw);
      r.Ok? && Least(sample) <= r.value.low <= r.value.high <= Greatest(sample)
  {
    var stats := Statistics(sample, kind, draw, resamples);
    ExtremesBound(sample);
    StatisticsWithin(sample, kind, draw, resamples, Least(sample), Greatest(sample));
    SortedWithin(stats, Least(sample), Greatest(sample));
    SortedSorts(stats);
    PlacesInOrder(resamples, confidence);
    PercentilesInOrder(Sorted(stats), LowPlace(resamples, confidence), HighPlace(resamples, confidence),
      Least(sample), Greatest(sample));
  }

  /** More confidence gives a wider interval around the old one. */
  lemma MoreConfidenceIsWider(sample: seq<real>, kind: string, resamples: int, confidence: real, more: real, draw: Draw)
    requires sample != [] && DrawsFrom(draw, |sample|) && Known(kind)
    requires resamples >= 1 && 0.0 <= confidence <= more <= 1.0
    ensures var r, wider := Expected(sample, kind, resamples, confidence, draw), Expected(sample, kind, resamples, more, draw);
      r.Ok? && wider.Ok? && wider.value.low <= r.value.low && r.value.high <= wider.value.high
  {
    SortedSorts(Statistics(sample, kind, draw, resamples));
    PlacesInOrder(resamples, confidence);
    PlacesInOrder(resamples, more);
    PlacesSpread(resamples, confidence, more);
    PercentilesWiden(Sorted(Statistics(sample, kind, draw, resamples)),
      LowPlace(resamples, more), LowPlace(resamples, confidence),
      HighPlace(resamples, confidence), HighPlace(resamples, more));
  }

  /** At full confidence it runs from the least statistic to the greatest. */
  lemma FullConfidenceSpansAll(sample: seq<real>, kind: string, resamples: int, draw: Draw)
    requires sample != [] && DrawsFrom(draw, |sample|) && Known(kind) && resamples >= 1
    ensures var stats := Statistics(sample, kind, draw, resamples);
      Expected(sample, kind, resamples, 1.0, draw) == Ok(Interval(Least(stats), Greatest(stats)))
  {
    var stats := Statistics(sample, kind, draw, resamples);
    var sorted := Sorted(stats);
    SortedSorts(stats);
    PercentileAtEntry(sorted, 0);
    PercentileAtEntry(sorted, |sorted| - 1);
    EndsAreExtremes(stats);
  }

  lemma EndsAreExtremes(xs: seq<real>)
    requires xs != []
    ensures Sorted(xs)[0] == Least(xs) && Sorted(xs)[|xs| - 1] == Greatest(xs)
  {
    ExtremesBound(xs);
    SortedWithin(xs, Least(xs), Greatest(xs));
    BetweenTheEnds(xs, Least(xs));
    BetweenTheEnds(xs, Greatest(xs));
  }

  lemma BetweenTheEnds(xs: seq<real>, x: real)
    requires x in xs
    ensures Sorted(xs)[0] <= x <= Sorted(xs)[|xs| - 1]
  {
    SortedSorts(xs);
    var sorted := Sorted(xs);
    assert x in multiset(xs);
    var k :| 0 <= k < |sorted| && sorted[k] == x;
  }
}
