/**
 * Time-of-day bins of the trip analyses: `roundUpTo10` of TripPurposeBy10Min
 * and `roundUpTo1` of PeopleInSafetyXY (under
 * simulator/src/main/java/org/disaster/routing/analysis/), and the arrival time
 * both compute as departure plus travel time on a 24-hour clock.
 *
 * A `LocalTime` is its second of the day. The bins count minutes since
 * midnight; seconds are dropped and 00:00 falls in the first bin.
 */
module TimeBins {

  const SecondsPerDay: int := 86400

  /** A time of day, as `LocalTime.toSecondOfDay()` gives it. */
  type SecondOfDay = s: int | 0 <= s < 86400

  function Hour(t: SecondOfDay): int {
    t / 3600
  }

  function Minute(t: SecondOfDay): int {
    (t / 60) % 60
  }

  /** Minutes since midnight, counting midnight itself as minute 1. */
  function MinuteOfDay(t: SecondOfDay): (m: int)
    ensures 1 <= m <= 1439
    ensures m == if t < 60 then 1 else t / 60
  {
    var minutes := Hour(t) * 60 + Minute(t);
    if minutes < 1 then 1 else minutes
  }

  /**
   * `roundUpTo10`: the smallest positive multiple of ten minutes at or after the
   * time's minute. The `Math.ceil(minutes / 10.0)` of the source is exact for
   * these small numbers, so it is integer ceiling division here.
   */
  function RoundUpTo10(t: SecondOfDay): (bin: int)
    ensures bin > 0 && bin % 10 == 0
    ensures MinuteOfDay(t) <= bin < MinuteOfDay(t) + 10
    ensures bin <= 1440
  {
    (MinuteOfDay(t) + 9) / 10 * 10
  }

  /** `roundUpTo1`: the minute of the day, at least 1. */
  function RoundUpTo1(t: SecondOfDay): (bin: int)
    ensures 1 <= bin <= 1439
    ensures bin == if t < 60 then 1 else t / 60
  {
    MinuteOfDay(t)
  }

  /** `dep.plusSeconds(trav.toSecondOfDay())`: the clock wraps at midnight. */
  function Arrival(departure: SecondOfDay, travel: SecondOfDay): (arrival: SecondOfDay)
    ensures departure + travel < SecondsPerDay ==> arrival == departure + travel
    ensures departure + travel >= SecondsPerDay ==> arrival == departure + travel - SecondsPerDay
  {
    (departure + travel) % SecondsPerDay
  }

  /** Seconds never change a bin: two times in the same minute share both bins. */
  lemma SameMinuteSameBin(a: SecondOfDay, b: SecondOfDay)
    requires a / 60 == b / 60
    ensures RoundUpTo10(a) == RoundUpTo10(b)
    ensures RoundUpTo1(a) == RoundUpTo1(b)
  {
  }

  /** A later time never falls in an earlier bin. */
  lemma BinsMonotone(a: SecondOfDay, b: SecondOfDay)
    requires a <= b
    ensures RoundUpTo1(a) <= RoundUpTo1(b)
    ensures RoundUpTo10(a) <= RoundUpTo10(b)
  {
    assert MinuteOfDay(a) <= MinuteOfDay(b);
  }

  /** Midnight goes to the first ten-minute bin and to minute 1. */
  lemma MidnightBins()
    ensures RoundUpTo10(0) == 10 && RoundUpTo1(0) == 1
  {
  }

  /** The ten-minute bin is the one-minute bin rounded up to a multiple of ten. */
  lemma TenMinuteBinCoversMinute(t: SecondOfDay)
    ensures RoundUpTo10(t) - 10 < RoundUpTo1(t) <= RoundUpTo10(t)
  {
  }
}
