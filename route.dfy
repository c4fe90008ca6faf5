/**
 * `Route` (src/routes/route.py): a path with the number of people taking it and
 * the departure schedule, seconds after midnight to the number of people leaving
 * then. `introduce_departure_times` spreads the people over `chunks` departures
 * `interval` seconds apart, the remainder going one each to the earliest ones.
 */
module Routes {
  import opened RoadNetwork

  /** Python's `int(a / b)`: the quotient truncated toward zero. */
  function TruncDiv(a: int, b: int): (q: int)
    requires b != 0
    ensures a >= 0 && b > 0 ==> q == a / b
    ensures a < 0 && b > 0 ==> q == -((-a) / b)
  {
    var m := (if a < 0 then -a else a) / (if b < 0 then -b else b);
    if (a < 0) == (b < 0) then m else -m
  }

  /** Python's `a % b`: the remainder takes the sign of the divisor. */
  function PyMod(a: int, b: int): (r: int)
    requires b != 0
    ensures b > 0 ==> 0 <= r < b
    ensures b < 0 ==> b < r <= 0
    ensures b > 0 ==> r == a % b
  {
    var e := a % b;
    if b < 0 && e != 0 then e + b else e
  }

  /** The number of people leaving in departure `i`: the share, plus one for the first `n % chunks`. */
  function SlotCount(n: int, chunks: int, i: int): int
    requires chunks != 0
  {
    TruncDiv(n, chunks) + (if i < PyMod(n, chunks) then 1 else 0)
  }

  /** The schedule after the first `m` iterations of the loop: departure `i` at `i * interval`. */
  function Schedule(n: int, chunks: int, interval: int, m: nat): map<int, int>
    requires chunks != 0
  {
    if m == 0 then map[] else Schedule(n, chunks, interval, m - 1)[(m - 1) * interval := SlotCount(n, chunks, m - 1)]
  }

  class Route {
    var path: Path
    var numPeopleOnRoute: int
    var departureTimes: map<int, int>

    /** Everybody leaves at midnight. */
    constructor (path: Path, numPeopleOnRoute: int)
      ensures this.path == path && this.numPeopleOnRoute == numPeopleOnRoute
      ensures departureTimes == map[0 := numPeopleOnRoute]
    {
      this.path := path;
      this.numPeopleOnRoute := numPeopleOnRoute;
      departureTimes := map[0 := numPeopleOnRoute];
    }

    /**
     * Replaces the schedule by `chunks` departures, one every `interval` seconds
     * from midnight; a zero `chunks` raises ZeroDivisionError in the source.
     */
    method IntroduceDepartureTimes(chunks: int, interval: int)
      requires chunks != 0
      modifies this
      ensures path == old(path) && numPeopleOnRoute == old(numPeopleOnRoute)
      ensures departureTimes == Schedule(numPeopleOnRoute, chunks, interval, if chunks < 0 then 0 else chunks)
    {
      var times: map<int, int> := map[];
      var n := numPeopleOnRoute;
      var peoplePerInterval := TruncDiv(n, chunks);
      var remainingPeople := PyMod(n, chunks);
      var secondsFromMidnight := 0;
      var i := 0;
      while i < chunks
        invariant 0 <= i && (chunks > 0 ==> i <= chunks) && (chunks < 0 ==> i == 0)
        invariant secondsFromMidnight == i * interval
        invariant times == Schedule(n, chunks, interval, i)
      {
        var count := peoplePerInterval + (if i < remainingPeople then 1 else 0);
        times := times[secondsFromMidnight := count];
        secondsFromMidnight := secondsFromMidnight + interval;
        i := i + 1;
      }
      departureTimes := times;
    }
  }

  /** The people leaving in the first `m` departures. */
  function Total(n: int, chunks: int, m: nat): int
    requires chunks != 0
  {
    if m == 0 then 0 else Total(n, chunks, m - 1) + SlotCount(n, chunks, m - 1)
  }

  /** The values of a schedule at the first `m` departure times `0, interval, ...`. */
  function SumAt(d: map<int, int>, interval: int, m: nat): int
    requires forall i | 0 <= i < m :: i * interval in d
  {
    if m == 0 then 0 else SumAt(d, interval, m - 1) + d[(m - 1) * interval]
  }

  lemma MultiplesDistinct(i: int, j: int, interval: int)
    requires i != j && interval != 0
    ensures i * interval != j * interval
  {
    assert i * interval - j * interval == (i - j) * interval;
  }

  /**
   * With a non-zero interval the departure times are exactly `0, interval, ...,
   * (m - 1) * interval`, departure `i` carrying its share.
   */
  lemma {:induction false} ScheduleSlots(n: int, chunks: int, interval: int, m: nat)
    requires chunks != 0 && interval != 0
    ensures Schedule(n, chunks, interval, m).Keys == set i | 0 <= i < m :: i * interval
    ensures forall i | 0 <= i < m :: Schedule(n, chunks, interval, m)[i * interval] == SlotCount(n, chunks, i)
  {
    if m > 0 {
      ScheduleSlots(n, chunks, interval, m - 1);
      forall i | 0 <= i < m - 1
        ensures i * interval != (m - 1) * interval
      {
        MultiplesDistinct(i, m - 1, interval);
      }
    }
  }

  /** With a zero interval every departure overwrites time 0: the last one wins. */
  lemma {:induction false} ZeroIntervalLastWins(n: int, chunks: int, m: nat)
    requires chunks != 0 && m > 0
    ensures Schedule(n, chunks, 0, m) == map[0 := SlotCount(n, chunks, m - 1)]
  {
    if m > 1 {
      ZeroIntervalLastWins(n, chunks, m - 1);
    }
  }

  /** The first `m` departures carry `m` shares and one extra for each of them below the remainder. */
  lemma {:induction false} TotalOfFirst(n: int, chunks: int, m: nat)
    requires chunks > 0 && m <= chunks
    ensures Total(n, chunks, m) == m * TruncDiv(n, chunks) + (if m < PyMod(n, chunks) then m else PyMod(n, chunks))
  {
    if m > 0 {
      TotalOfFirst(n, chunks, m - 1);
    }
  }

  /** Nobody is lost or added: for a non-negative head-count the departures add up to it. */
  lemma SharesAddUp(n: int, chunks: int)
    requires n >= 0 && chunks > 0
    ensures Total(n, chunks, chunks) == n
  {
    TotalOfFirst(n, chunks, chunks);
  }

  lemma {:induction false} SumAtSchedule(n: int, chunks: int, interval: int, m: nat)
    requires chunks > 0 && interval != 0
    requires forall i | 0 <= i < m :: i * interval in Schedule(n, chunks, interval, chunks as nat)
    requires forall i | 0 <= i < m :: Schedule(n, chunks, interval, chunks as nat)[i * interval] == SlotCount(n, chunks, i)
    ensures SumAt(Schedule(n, chunks, interval, chunks as nat), interval, m) == Total(n, chunks, m)
  {
    if m > 0 {
      SumAtSchedule(n, chunks, interval, m - 1);
    }
  }

  /**
   * With positive `chunks` and a non-zero interval, the values of the schedule
   * add up to the head-count.
   */
  lemma ScheduleAddsUp(n: int, chunks: int, interval: int)
    requires n >= 0 && chunks > 0 && interval != 0
    ensures |Schedule(n, chunks, interval, chunks).Keys| == chunks
    ensures forall i | 0 <= i < chunks :: i * interval in Schedule(n, chunks, interval, chunks)
    ensures SumAt(Schedule(n, chunks, interval, chunks), interval, chunks) == n
  {
    ScheduleSlots(n, chunks, interval, chunks);
    SumAtSchedule(n, chunks, interval, chunks);
    SharesAddUp(n, chunks);
    ScheduleKeyCount(chunks, interval, chunks);
  }

  lemma {:induction false} ScheduleKeyCount(chunks: int, interval: int, m: nat)
    requires interval != 0
    ensures |set i | 0 <= i < m :: i * interval| == m
  {
    if m > 0 {
      ScheduleKeyCount(chunks, interval, m - 1);
      var s := set i | 0 <= i < m - 1 :: i * interval;
      assert (set i | 0 <= i < m :: i * interval) == s + {(m - 1) * interval};
      forall i | 0 <= i < m - 1
        ensures i * interval != (m - 1) * interval
      {
        MultiplesDistinct(i, m - 1, interval);
      }
    }
  }

  /**
   * The departures share the head-count as evenly as possible: counts are
   * non-increasing, differ by at most one, and exactly the first `n % chunks` get
   * one more than `n // chunks`.
   */
  lemma EvenShares(n: int, chunks: int, i: int, j: int)
    requires n >= 0 && chunks > 0 && 0 <= i <= j < chunks
    ensures SlotCount(n, chunks, j) <= SlotCount(n, chunks, i) <= SlotCount(n, chunks, j) + 1
    ensures SlotCount(n, chunks, i) == n / chunks + 1 <==> i < n % chunks
    ensures SlotCount(n, chunks, i) == n / chunks || SlotCount(n, chunks, i) == n / chunks + 1
  {
  }

  /** 10 people in 3 chunks 5 s apart: 4, 3 and 3. */
  lemma TenPeopleThreeChunks()
    ensures Schedule(10, 3, 5, 3) == map[0 := 4, 5 := 3, 10 := 3]
  {
  }

  /** 119 people in 2 chunks 35000 s apart: 60 and 59. */
  lemma HundredNineteenPeopleTwoChunks()
    ensures Schedule(119, 2, 35000, 2) == map[0 := 60, 35000 := 59]
  {
  }
}
