/**
 * The speed performance index of TrafficStatsCalculatorDisaster (under
 * simulator/src/main/java/org/disaster/routing/analysis/): a link's actual speed
 * against its allowed speed, capped at 1; the partition of the day into
 * intervals of a given length; and the per-link congestion index, which samples
 * the index every `timeSlice` seconds and counts the congested samples.
 *
 * The travel-time lookup of a link becomes a parameter: the index at each time
 * of day, as a function.
 */
module TrafficStats {
  import opened Wrappers

  const SecondsInDay: int := 86400

  /** A sample at or below this index counts as congested. */
  const CongestedThreshold: real := 0.5

  /**
   * `getSpeedPerformanceIndex(link, time)`: the actual speed, length over
   * actual travel time, as a fraction of the allowed speed, capped at 1.
   */
  function SpeedPerformanceIndex(length: real, allowedSpeed: real, actualTravelTime: real): (spi: real)
    requires allowedSpeed != 0.0 && actualTravelTime != 0.0
    ensures spi <= 1.0
    ensures var ratio := length / actualTravelTime / allowedSpeed;
      (ratio <= 1.0 ==> spi == ratio) && (ratio > 1.0 ==> spi == 1.0)
  {
    var actualSpeed := length / actualTravelTime;
    var ratio := actualSpeed / allowedSpeed;
    if ratio > 1.0 then 1.0 else ratio
  }

  /** With positive quantities the index lies in (0, 1], and reaches 1 exactly at or above the allowed speed. */
  lemma SpeedPerformanceIndexRange(length: real, allowedSpeed: real, actualTravelTime: real)
    requires length > 0.0 && allowedSpeed > 0.0 && actualTravelTime > 0.0
    ensures 0.0 < SpeedPerformanceIndex(length, allowedSpeed, actualTravelTime) <= 1.0
    ensures SpeedPerformanceIndex(length, allowedSpeed, actualTravelTime) == 1.0 <==> length / actualTravelTime >= allowedSpeed
  {
    var speed := length / actualTravelTime;
    assert speed > 0.0;
    assert speed / allowedSpeed >= 1.0 <==> speed >= allowedSpeed by {
      assert (speed / allowedSpeed) * allowedSpeed == speed;
    }
  }

  /** One interval of the day, in seconds since midnight. */
  datatype Time = Time(start: int, end: int)

  /** The intervals from `start` on: each `interval` long, the last one cut off at midnight. */
  function PartitionFrom(start: int, interval: int): seq<Time>
    requires interval > 0
    decreases SecondsInDay - start
  {
    if start >= SecondsInDay then []
    else [Time(start, if start + interval < SecondsInDay then start + interval else SecondsInDay)] + PartitionFrom(start + interval, interval)
  }

  /** The day divided into intervals of `interval` seconds. */
  function DayPartition(interval: int): seq<Time>
    requires interval > 0
  {
    PartitionFrom(0, interval)
  }

  /**
   * `generateTimes`: steps through the day from 0, adding an interval that ends
   * `interval` seconds later or at midnight, whichever comes first. For a
   * positive `int` interval the sums stay far below 2^31, so nothing wraps.
   */
  method GenerateTimes(interval: int) returns (times: seq<Time>)
    requires interval > 0
    ensures times == DayPartition(interval)
  {
    times := [];
    var start := 0;
    while start < SecondsInDay
      invariant start >= 0
      invariant times + PartitionFrom(start, interval) == DayPartition(interval)
      decreases SecondsInDay - start
    {
      var end := if start + interval < SecondsInDay then start + interval else SecondsInDay;
      times := times + [Time(start, end)];
      start := start + interval;
    }
  }

  /**
   * The intervals from `start` tile [start, 86400): each begins where the one
   * before it ended, the last ends at midnight, every one but the last is
   * `interval` long, and the last is no longer.
   */
  lemma {:induction false} PartitionTiles(start: int, interval: int)
    requires interval > 0 && start < SecondsInDay
    ensures var p := PartitionFrom(start, interval);
      && |p| > 0
      && p[0].start == start
      && p[|p| - 1].end == SecondsInDay
      && (forall k | 0 <= k < |p| - 1 :: p[k].end == p[k + 1].start)
      && (forall k | 0 <= k < |p| - 1 :: p[k].end - p[k].start == interval)
      && 0 < p[|p| - 1].end - p[|p| - 1].start <= interval
    decreases SecondsInDay - start
  {
    var p := PartitionFrom(start, interval);
    if start + interval < SecondsInDay {
      PartitionTiles(start + interval, interval);
      var rest := PartitionFrom(start + interval, interval);
      assert p == [Time(start, start + interval)] + rest;
      forall k | 0 <= k < |p| - 1
        ensures p[k].end == p[k + 1].start && p[k].end - p[k].start == interval
      {
        if k > 0 {
          assert p[k] == rest[k - 1] && p[k + 1] == rest[k];
        }
      }
    } else {
      assert PartitionFrom(start + interval, interval) == [];
      assert p == [Time(start, SecondsInDay)];
    }
  }

  /** The number of intervals from `start` on is the remaining time divided by the interval, rounded up. */
  lemma {:induction false} PartitionCount(start: int, interval: int)
    requires interval > 0 && start < SecondsInDay
    ensures |PartitionFrom(start, interval)| == (SecondsInDay - start + interval - 1) / interval
    decreases SecondsInDay - start
  {
    var remaining := SecondsInDay - start;
    if start + interval < SecondsInDay {
      PartitionCount(start + interval, interval);
      DivShift(remaining - 1, interval);
    } else {
      DivOne(remaining + interval - 1, interval);
    }
  }

  /** Division is determined by quotient and remainder. */
  lemma DivUnique(n: int, d: int, q: int, r: int)
    requires d > 0 && 0 <= r < d && n == q * d + r
    ensures n / d == q
  {
    var q', r' := n / d, n % d;
    assert n == q' * d + r';
    assert (q - q') * d == r' - r;
    assert q - q' >= 1 ==> (q - q') * d >= d;
    assert q - q' <= -1 ==> (q' - q) * d >= d;
  }

  lemma DivShift(x: int, d: int)
    requires d > 0 && x >= 0
    ensures (x + d) / d == x / d + 1
  {
    var q, r := x / d, x % d;
    assert x == q * d + r;
    assert x + d == (q + 1) * d + r;
    DivUnique(x + d, d, q + 1, r);
  }

  lemma DivOne(x: int, d: int)
    requires d > 0 && d <= x < 2 * d
    ensures x / d == 1
  {
    DivUnique(x, d, 1, x - d);
  }

  /**
   * The day partition starts at midnight, tiles the whole day without gaps or
   * overlaps, and has ceil(86400 / interval) intervals, each `interval` long but
   * a possibly shorter last one.
   */
  lemma DayPartitionTiles(interval: int)
    requires interval > 0
    ensures var p := DayPartition(interval);
      && |p| == (SecondsInDay + interval - 1) / interval
      && p[0].start == 0
      && p[|p| - 1].end == SecondsInDay
      && (forall k | 0 <= k < |p| - 1 :: p[k].end == p[k + 1].start)
      && (forall k | 0 <= k < |p| - 1 :: p[k].end - p[k].start == interval)
      && 0 < p[|p| - 1].end - p[|p| - 1].start <= interval
  {
    PartitionTiles(0, interval);
    PartitionCount(0, interval);
  }

  /** The ten-minute partition used for the congestion map has 144 intervals. */
  lemma TenMinuteIntervals()
    ensures |DayPartition(600)| == 144
  {
    PartitionCount(0, 600);
  }

  /** The sampling times `start`, `start + timeSlice`, … before `end`. */
  function SampleTimes(start: int, end: int, timeSlice: int): seq<int>
    requires timeSlice > 0
    decreases end - start
  {
    if start >= end then [] else [start] + SampleTimes(start + timeSlice, end, timeSlice)
  }

  /** The number of samples is the observed span divided by the slice, rounded up. */
  lemma {:induction false} SampleCount(start: int, end: int, timeSlice: int)
    requires timeSlice > 0
    ensures |SampleTimes(start, end, timeSlice)| == if start >= end then 0 else (end - start + timeSlice - 1) / timeSlice
    decreases end - start
  {
    if start < end {
      SampleCount(start + timeSlice, end, timeSlice);
      if start + timeSlice < end {
        DivShift(end - start - 1, timeSlice);
      } else {
        DivOne(end - start + timeSlice - 1, timeSlice);
      }
    }
  }

  /** Sample `k` is taken `k` slices after the start, and before the end. */
  lemma {:induction false} SampleTimeAt(start: int, end: int, timeSlice: int, k: int)
    requires timeSlice > 0 && 0 <= k < |SampleTimes(start, end, timeSlice)|
    ensures SampleTimes(start, end, timeSlice)[k] == start + k * timeSlice
    ensures start <= SampleTimes(start, end, timeSlice)[k] < end
    decreases end - start
  {
    var rest := SampleTimes(start + timeSlice, end, timeSlice);
    assert SampleTimes(start, end, timeSlice) == [start] + rest;
    if k > 0 {
      SampleTimeAt(start + timeSlice, end, timeSlice, k - 1);
      MulStep(k, timeSlice);
    }
  }

  lemma MulStep(k: int, t: int)
    ensures (k - 1) * t + t == k * t
  {
  }

  /** The number of congested samples. */
  function CongestedCount(samples: seq<real>): nat {
    if samples == [] then 0
    else CongestedCount(samples[..|samples| - 1]) + (if samples[|samples| - 1] <= CongestedThreshold then 1 else 0)
  }

  function Sum(samples: seq<real>): real {
    if samples == [] then 0.0 else Sum(samples[..|samples| - 1]) + samples[|samples| - 1]
  }

  /** The mean of the samples, or -1 when there are none. */
  function AverageOrMinusOne(samples: seq<real>): real {
    if samples == [] then -1.0 else Sum(samples) / (|samples| as real)
  }

  /**
   * The congestion index of a link with samples: the average index times the
   * share of samples that are not congested.
   */
  function CongestionIndex(samples: seq<real>): real
    requires samples != []
  {
    AverageOrMinusOne(samples) * UncongestedShare(CongestedCount(samples), |samples|)
  }

  /** `1 - (double) congested / observed`. */
  function UncongestedShare(congested: int, observed: int): real
    requires observed > 0
  {
    1.0 - (congested as real) / (observed as real)
  }

  /**
   * What `getLinkCongestionIndex` computes on the way to its result. Without a
   * sample the Java result is 0/0, which is NaN: the index is then `None`.
   */
  datatype CongestionStats = CongestionStats(samples: seq<real>, congestedPeriods: int, observedPeriods: int, index: Option<real>)

  /** The indices at the sampling times. */
  function Samples(spi: int -> real, start: int, end: int, timeSlice: int): (samples: seq<real>)
    requires timeSlice > 0
    ensures |samples| == |SampleTimes(start, end, timeSlice)|
    ensures forall k | 0 <= k < |samples| :: samples[k] == spi(SampleTimes(start, end, timeSlice)[k])
  {
    var ts := SampleTimes(start, end, timeSlice);
    seq(|ts|, k requires 0 <= k < |ts| => spi(ts[k]))
  }

  /**
   * The sampling loop of `getLinkCongestionIndex`: the index every `timeSlice`
   * seconds from `startTime` until before `endTime`, with the count of congested
   * samples (at or below 0.5) and of observed ones.
   */
  method SampleLink(spi: int -> real, startTime: int, endTime: int, timeSlice: int)
    returns (speedPerformance: seq<real>, congestedPeriodCounter: int, totalObservedPeriods: int)
    requires timeSlice > 0
    ensures speedPerformance == Samples(spi, startTime, endTime, timeSlice)
    ensures totalObservedPeriods == |speedPerformance|
    ensures congestedPeriodCounter == CongestedCount(speedPerformance)
  {
    ghost var all := SampleTimes(startTime, endTime, timeSlice);
    speedPerformance := [];
    congestedPeriodCounter := 0;
    totalObservedPeriods := 0;
    var time := startTime;
    while time < endTime
      invariant all == SampleTimes(startTime, endTime, timeSlice)
      invariant |speedPerformance| <= |all|
      invariant all[|speedPerformance|..] == SampleTimes(time, endTime, timeSlice)
      invariant speedPerformance == Samples(spi, startTime, endTime, timeSlice)[..|speedPerformance|]
      invariant totalObservedPeriods == |speedPerformance|
      invariant congestedPeriodCounter == CongestedCount(speedPerformance)
      decreases endTime - time
    {
      var speedPerformanceIndex := spi(time);
      ghost var before := speedPerformance;
      speedPerformance := speedPerformance + [speedPerformanceIndex];
      assert speedPerformance[..|before|] == before;
      if speedPerformanceIndex <= CongestedThreshold {
        congestedPeriodCounter := congestedPeriodCounter + 1;
      }
      totalObservedPeriods := totalObservedPeriods + 1;
      time := time + timeSlice;
    }
    assert |speedPerformance| == |all|;
  }

  /**
   * `getLinkCongestionIndex`: the sampled indices, their average times the
   * share of samples that are not congested.
   */
  method LinkCongestionIndex(spi: int -> real, startTime: int, endTime: int, timeSlice: int) returns (stats: CongestionStats)
    requires timeSlice > 0
    ensures stats.samples == Samples(spi, startTime, endTime, timeSlice)
    ensures stats.observedPeriods == |stats.samples|
    ensures stats.congestedPeriods == CongestedCount(stats.samples)
    ensures stats.index.Some? <==> stats.samples != []
    ensures stats.index.Some? ==> stats.index.value == CongestionIndex(stats.samples)
  {
    var speedPerformance, congestedPeriodCounter, totalObservedPeriods := SampleLink(spi, startTime, endTime, timeSlice);
    var index: Option<real> := None;
    if totalObservedPeriods > 0 {
      var share := UncongestedShare(congestedPeriodCounter, totalObservedPeriods);
      index := Some(AverageOrMinusOne(speedPerformance) * share);
      assert index.value == CongestionIndex(speedPerformance);
    }
    stats := CongestionStats(speedPerformance, congestedPeriodCounter, totalObservedPeriods, index);
  }

  /** The congested samples are some of the observed ones. */
  lemma {:induction false} CongestedAtMostObserved(samples: seq<real>)
    ensures 0 <= CongestedCount(samples) <= |samples|
    ensures CongestedCount(samples) == |samples| <==> forall k | 0 <= k < |samples| :: samples[k] <= CongestedThreshold
    ensures CongestedCount(samples) == 0 <==> forall k | 0 <= k < |samples| :: samples[k] > CongestedThreshold
  {
    if samples != [] {
      var init := samples[..|samples| - 1];
      CongestedAtMostObserved(init);
      assert forall k | 0 <= k < |init| :: init[k] == samples[k];
    }
  }

  /** A sum of values in [0, 1] lies between 0 and their number. */
  lemma {:induction false} SumBounds(samples: seq<real>)
    requires forall k | 0 <= k < |samples| :: 0.0 <= samples[k] <= 1.0
    ensures 0.0 <= Sum(samples) <= |samples| as real
  {
    if samples != [] {
      var init := samples[..|samples| - 1];
      assert forall k | 0 <= k < |init| :: init[k] == samples[k];
      SumBounds(init);
    }
  }

  /**
   * With every sample a capped index in [0, 1], the congestion index lies in
   * [0, 1]; it is 0 when every sample is congested and the plain average when
   * none is.
   */
  lemma CongestionIndexRange(samples: seq<real>)
    requires samples != []
    requires forall k | 0 <= k < |samples| :: 0.0 <= samples[k] <= 1.0
    ensures 0.0 <= CongestionIndex(samples) <= 1.0
    ensures (forall k | 0 <= k < |samples| :: samples[k] <= CongestedThreshold) ==> CongestionIndex(samples) == 0.0
    ensures (forall k | 0 <= k < |samples| :: samples[k] > CongestedThreshold) ==> CongestionIndex(samples) == AverageOrMinusOne(samples)
  {
    SumBounds(samples);
    CongestedAtMostObserved(samples);
    AverageInUnit(Sum(samples), |samples|);
    ShareInUnit(CongestedCount(samples), |samples|);
    ProductInUnit(AverageOrMinusOne(samples), UncongestedShare(CongestedCount(samples), |samples|));
  }

  lemma AverageInUnit(sum: real, n: int)
    requires n > 0 && 0.0 <= sum <= n as real
    ensures 0.0 <= sum / (n as real) <= 1.0
  {
    var avg := sum / (n as real);
    assert avg * (n as real) == sum;
  }

  /** The uncongested share is in [0, 1]: 1 with no congested sample and 0 with all of them congested. */
  lemma ShareInUnit(congested: int, observed: int)
    requires 0 <= congested <= observed && observed > 0
    ensures 0.0 <= UncongestedShare(congested, observed) <= 1.0
    ensures congested == 0 ==> UncongestedShare(congested, observed) == 1.0
    ensures congested == observed ==> UncongestedShare(congested, observed) == 0.0
  {
    var q := (congested as real) / (observed as real);
    assert q * (observed as real) == congested as real;
  }

  lemma ProductInUnit(a: real, b: real)
    requires 0.0 <= a <= 1.0 && 0.0 <= b <= 1.0
    ensures 0.0 <= a * b <= 1.0
  {
    if a > 0.0 && b > 0.0 {
      assert a * b <= a * 1.0;
    }
  }

  /** When the end is not after the start there is no sample, and so no index. */
  lemma NoSamplesForEmptySpan(spi: int -> real, startTime: int, endTime: int, timeSlice: int)
    requires timeSlice > 0 && endTime <= startTime
    ensures Samples(spi, startTime, endTime, timeSlice) == []
  {
  }
}
