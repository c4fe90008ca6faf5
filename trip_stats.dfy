/**
 * Trip statistics per transport mode (TripStatsDisaster under
 * simulator/src/main/java/org/disaster/routing/analysis/): `durationToSeconds`
 * reads an "H:M:S" travel time, and the main loop counts the trips of each mode
 * and sums their travel times and distances.
 */
module TripStats {
  import opened Wrappers

  /** Why `durationToSeconds` throws: a missing field, or a field `Integer.parseInt` rejects. */
  datatype DurationError = IndexOutOfBounds | NumberFormat

  const IntMin: int := -0x8000_0000
  const IntMax: int := 0x7fff_ffff

  /** Java `int` arithmetic: the result wrapped into 32 bits. */
  function Wrap32(x: int): (r: int)
    ensures IntMin <= r <= IntMax
    ensures IntMin <= x <= IntMax ==> r == x
    ensures (r - x) % 0x1_0000_0000 == 0
  {
    (x - IntMin) % 0x1_0000_0000 + IntMin
  }

  /** The fields of `s` between colons, empty ones included. */
  function Fields(s: string): (fields: seq<string>)
    ensures |fields| >= 1
    decreases |s|
  {
    if s == [] then [[]]
    else
      var rest := Fields(s[1..]);
      if s[0] == ':' then [[]] + rest else [[s[0]] + rest[0]] + rest[1..]
  }

  /** Removes the empty fields at the end. */
  function DropTrailingEmpty(fields: seq<string>): seq<string> {
    if fields == [] || fields[|fields| - 1] != [] then fields else DropTrailingEmpty(fields[..|fields| - 1])
  }

  /** What is dropped is exactly the run of empty fields at the end. */
  lemma {:induction false} TrailingEmptyDropped(fields: seq<string>)
    ensures var r := DropTrailingEmpty(fields);
      && |r| <= |fields| && r == fields[..|r|]
      && (r == [] || r[|r| - 1] != [])
      && forall i | |r| <= i < |fields| :: fields[i] == []
  {
    if fields != [] && fields[|fields| - 1] == [] {
      TrailingEmptyDropped(fields[..|fields| - 1]);
    }
  }

  /**
   * `String.split(":")`: the string itself when it has no colon, and otherwise its
   * fields with the trailing empty ones removed.
   */
  function JavaSplit(s: string): seq<string> {
    if ':' !in s then [s] else DropTrailingEmpty(Fields(s))
  }

  function DigitsValue(s: string): int {
    if s == [] then 0 else DigitsValue(s[..|s| - 1]) * 10 + (s[|s| - 1] as int - '0' as int)
  }

  predicate AllDigits(s: string) {
    forall i | 0 <= i < |s| :: '0' <= s[i] <= '9'
  }

  /**
   * `Integer.parseInt` on ASCII text: an optional sign and at least one digit,
   * and a value that fits in an `int`.
   */
  function ParseInt(s: string): (r: Option<int>)
    ensures r.Some? ==> IntMin <= r.value <= IntMax
  {
    if s == [] then None
    else
      var negative := s[0] == '-';
      var digits := if s[0] == '-' || s[0] == '+' then s[1..] else s;
      if digits == [] || !AllDigits(digits) then None
      else
        var v := if negative then -DigitsValue(digits) else DigitsValue(digits);
        if IntMin <= v <= IntMax then Some(v) else None
  }

  /** Reads field `i` as `split[i]` followed by `Integer.parseInt` would. */
  function Field(split: seq<string>, i: nat): Result<int, DurationError> {
    if i >= |split| then Failure(IndexOutOfBounds)
    else
      var v := ParseInt(split[i]);
      if v.None? then Failure(NumberFormat) else Success(v.value)
  }

  /** `h * 60 * 60 + m * 60 + s` in Java `int` arithmetic: every product and sum wraps. */
  function Combine32(h: int, m: int, s: int): (r: int)
    ensures IntMin <= r <= IntMax
  {
    Wrap32(Wrap32(Wrap32(Wrap32(h * 60) * 60) + Wrap32(m * 60)) + s)
  }

  /**
   * `durationToSeconds`: hours, minutes and seconds from the first three fields,
   * read left to right so the first bad field decides the error.
   */
  function DurationToSeconds(d: string): (r: Result<int, DurationError>)
    ensures r.Success? ==> IntMin <= r.value <= IntMax
  {
    var split := JavaSplit(d);
    var h := Field(split, 0);
    if h.Failure? then Failure(h.error)
    else
      var m := Field(split, 1);
      if m.Failure? then Failure(m.error)
      else
        var s := Field(split, 2);
        if s.Failure? then Failure(s.error)
        else Success(Combine32(h.value, m.value, s.value))
  }

  /**
   * The outcomes of `durationToSeconds`: a value exactly when the first three
   * fields are numbers, fields after the third are never looked at, and an index
   * error exactly when fewer than three fields are there and all of them are
   * numbers; every other failure is a number-format error.
   */
  lemma DurationOutcomes(d: string)
    ensures var split := JavaSplit(d);
      DurationToSeconds(d).Success? <==> |split| >= 3 && ParseInt(split[0]).Some? && ParseInt(split[1]).Some? && ParseInt(split[2]).Some?
    ensures var split := JavaSplit(d);
      |split| >= 3 && DurationToSeconds(d).Success? ==>
        DurationToSeconds(d).value == Combine32(ParseInt(split[0]).value, ParseInt(split[1]).value, ParseInt(split[2]).value)
    ensures var split := JavaSplit(d);
      DurationToSeconds(d) == Failure(IndexOutOfBounds) <==> |split| < 3 && forall i | 0 <= i < |split| :: ParseInt(split[i]).Some?
  {
  }

  /** Within the range of `int`, the combination is the plain 3600 h + 60 m + s. */
  lemma NoWrapForRealisticDurations(h: int, m: int, s: int)
    requires 0 <= h <= 596522 && 0 <= m < 60 && 0 <= s < 60
    ensures Combine32(h, m, s) == 3600 * h + 60 * m + s
  {
    assert Wrap32(h * 60) == h * 60;
    assert (h * 60) * 60 == 3600 * h;
  }

  /** From 596524 hours on, the hours alone overflow and the result wraps to a negative number. */
  lemma HoursOverflow()
    ensures Combine32(596524, 0, 0) < 0
  {
  }

  function Digit(d: nat): (c: char)
    requires d < 10
  {
    ('0' as int + d) as char
  }

  /** The decimal digits of `n`, as a travel-time field is written. */
  function Decimal(n: nat): string {
    if n < 10 then [Digit(n)] else Decimal(n / 10) + [Digit(n % 10)]
  }

  /** A decimal numeral is a run of digits that reads back as its number. */
  lemma {:induction false} DecimalDigits(n: nat)
    ensures var s := Decimal(n);
      s != [] && AllDigits(s) && ':' !in s && s[0] != '-' && s[0] != '+' && DigitsValue(s) == n
  {
    var s := Decimal(n);
    if n < 10 {
      assert s[..0] == [];
    } else {
      DecimalDigits(n / 10);
      assert s[..|s| - 1] == Decimal(n / 10);
      assert s[0] == Decimal(n / 10)[0];
    }
  }

  /** `Integer.parseInt` reads back what `Decimal` writes, and the negated numeral too. */
  lemma ParseDecimal(n: nat)
    requires n <= IntMax
    ensures ParseInt(Decimal(n)) == Some(n)
    ensures ParseInt("-" + Decimal(n)) == Some(-(n as int))
  {
    DecimalDigits(n);
    assert ("-" + Decimal(n))[1..] == Decimal(n);
  }

  /** A field without a colon runs on into what follows it. */
  lemma {:induction false} FieldsOfColonFree(a: string, rest: string)
    requires ':' !in a
    ensures Fields(a + rest) == [a + Fields(rest)[0]] + Fields(rest)[1..]
  {
    var f := Fields(rest);
    if a != [] {
      var s := a + rest;
      assert s[0] == a[0] != ':' && ':' !in a[1..];
      assert s[1..] == a[1..] + rest;
      FieldsOfColonFree(a[1..], rest);
      var r := Fields(s[1..]);
      assert r[0] == a[1..] + f[0] && r[1..] == f[1..];
      assert Fields(s) == [[a[0]] + r[0]] + r[1..];
      assert [a[0]] + a[1..] == a;
      Regroup([a[0]], a[1..], f[0]);
    } else {
      assert a + rest == rest;
      assert a + f[0] == f[0];
      assert [f[0]] + f[1..] == f;
    }
  }

  /** A colon ends a field: the text before it is the first field. */
  lemma FieldsAtColon(a: string, rest: string)
    requires ':' !in a
    ensures Fields(a + ":" + rest) == [a] + Fields(rest)
  {
    FieldsOfColonFree(a, ":" + rest);
    assert a + ":" + rest == a + (":" + rest);
    assert (":" + rest)[1..] == rest;
    var f := Fields(":" + rest);
    assert f == [[]] + Fields(rest);
    assert a + f[0] == a;
  }

  /** Text without a colon is one field. */
  lemma FieldOfColonFree(a: string)
    requires ':' !in a
    ensures Fields(a) == [a]
  {
    FieldsOfColonFree(a, []);
    assert a + [] == a;
  }

  /** When the third field is not empty, `split` keeps the first three fields. */
  lemma SplitKeepsThree(d: string, fields: seq<string>)
    requires ':' in d && Fields(d) == fields && |fields| >= 3 && fields[2] != []
    ensures |JavaSplit(d)| >= 3
    ensures JavaSplit(d)[0] == fields[0] && JavaSplit(d)[1] == fields[1] && JavaSplit(d)[2] == fields[2]
  {
    TrailingEmptyDropped(fields);
  }

  /** The fields of "H:M:S". */
  lemma ThreeFields(H: string, M: string, S: string)
    requires ':' !in H && ':' !in M && ':' !in S
    ensures Fields(H + ":" + M + ":" + S) == [H, M, S]
  {
    FieldsAtColon(M, S);
    FieldsAtColon(H, M + ":" + S);
    FieldOfColonFree(S);
    assert H + ":" + M + ":" + S == H + ":" + (M + ":" + S);
  }

  lemma Regroup(a: string, b: string, c: string)
    ensures a + b + c == a + (b + c)
  {
  }

  /** The fields of "H:M:S:rest". */
  lemma MoreFields(H: string, M: string, S: string, rest: string)
    requires ':' !in H && ':' !in M && ':' !in S
    ensures Fields(H + ":" + M + ":" + S + ":" + rest) == [H, M, S] + Fields(rest)
  {
    var tail := S + ":" + rest;
    FieldsAtColon(S, rest);
    FieldsAtColon(M, tail);
    FieldsAtColon(H, M + ":" + tail);
    calc {
      H + ":" + M + ":" + S + ":" + rest;
      { Regroup(H + ":" + M + ":" + S, ":", rest); }
      H + ":" + M + ":" + S + (":" + rest);
      { Regroup(H + ":" + M + ":", S, ":" + rest); }
      H + ":" + M + ":" + tail;
      { Regroup(H + ":" + M, ":", tail); }
      H + ":" + M + (":" + tail);
      { Regroup(H + ":", M, ":" + tail); }
      H + ":" + (M + ":" + tail);
    }
  }

  /** `split` keeps the first three fields of "H:M:S:rest". */
  lemma SplitMoreFields(H: string, M: string, S: string, rest: string)
    requires ':' !in H && ':' !in M && ':' !in S && S != []
    ensures var split := JavaSplit(H + ":" + M + ":" + S + ":" + rest);
      |split| >= 3 && split[0] == H && split[1] == M && split[2] == S
  {
    var d := H + ":" + M + ":" + S + ":" + rest;
    MoreFields(H, M, S, rest);
    assert d[|H|] == ':';
    SplitKeepsThree(d, [H, M, S] + Fields(rest));
  }

  /** Three numeric fields give their 32-bit combination. */
  lemma ReadsSplit(d: string, h: int, m: int, s: int)
    requires |JavaSplit(d)| >= 3
    requires ParseInt(JavaSplit(d)[0]) == Some(h) && ParseInt(JavaSplit(d)[1]) == Some(m) && ParseInt(JavaSplit(d)[2]) == Some(s)
    ensures DurationToSeconds(d) == Success(Combine32(h, m, s))
  {
  }

  /** "h:m:s" reads as the 32-bit combination of its three numbers. */
  lemma ReadsCombination(h: nat, m: nat, s: nat)
    requires h <= IntMax && m <= IntMax && s <= IntMax
    ensures DurationToSeconds(Decimal(h) + ":" + Decimal(m) + ":" + Decimal(s)) == Success(Combine32(h, m, s))
  {
    var H, M, S := Decimal(h), Decimal(m), Decimal(s);
    var d := H + ":" + M + ":" + S;
    DecimalDigits(h);
    DecimalDigits(m);
    DecimalDigits(s);
    ParseDecimal(h);
    ParseDecimal(m);
    ParseDecimal(s);
    ThreeFields(H, M, S);
    assert d[|H|] == ':';
    SplitKeepsThree(d, [H, M, S]);
    ReadsSplit(d, h, m, s);
  }

  /** "h:m:s" reads as 3600 h + 60 m + s: in this range the 32-bit arithmetic does not wrap. */
  lemma ReadsHoursMinutesSeconds(h: nat, m: nat, s: nat)
    requires h <= 596522 && m < 60 && s < 60
    ensures var r := DurationToSeconds(Decimal(h) + ":" + Decimal(m) + ":" + Decimal(s));
      r.Success? && r.value == 3600 * h + 60 * m + s
  {
    ReadsCombination(h, m, s);
    NoWrapForRealisticDurations(h, m, s);
  }

  /** Whatever follows a third colon is ignored. */
  lemma ExtraFieldsIgnored(h: nat, m: nat, s: nat, rest: string)
    requires h <= IntMax && m <= IntMax && s <= IntMax
    ensures DurationToSeconds(Decimal(h) + ":" + Decimal(m) + ":" + Decimal(s) + ":" + rest)
         == DurationToSeconds(Decimal(h) + ":" + Decimal(m) + ":" + Decimal(s))
  {
    var H, M, S := Decimal(h), Decimal(m), Decimal(s);
    DecimalDigits(h);
    DecimalDigits(m);
    DecimalDigits(s);
    ParseDecimal(h);
    ParseDecimal(m);
    ParseDecimal(s);
    SplitMoreFields(H, M, S, rest);
    ReadsSplit(H + ":" + M + ":" + S + ":" + rest, h, m, s);
    ReadsCombination(h, m, s);
  }

  /** "H:M" splits into its two fields when M is not empty. */
  lemma SplitTwo(H: string, M: string)
    requires ':' !in H && ':' !in M && M != []
    ensures JavaSplit(H + ":" + M) == [H, M]
  {
    var d := H + ":" + M;
    FieldsAtColon(H, M);
    FieldOfColonFree(M);
    assert d[|H|] == ':';
    assert Fields(d) == [H, M];
  }

  /** "h:m" has one field too few. */
  lemma TwoFieldsAreTooFew(h: nat, m: nat)
    requires h <= IntMax && m <= IntMax
    ensures DurationToSeconds(Decimal(h) + ":" + Decimal(m)) == Failure(IndexOutOfBounds)
  {
    DecimalDigits(h);
    DecimalDigits(m);
    ParseDecimal(h);
    ParseDecimal(m);
    SplitTwo(Decimal(h), Decimal(m));
    DurationOutcomes(Decimal(h) + ":" + Decimal(m));
  }

  /** An empty travel time is one empty field, which is no number. */
  lemma EmptyIsNotANumber()
    ensures DurationToSeconds("") == Failure(NumberFormat)
  {
  }

  /** A trip row as the loop reads it. */
  datatype Trip = Trip(mainMode: string, travelTime: string, travelledDistance: int, beelineDistance: int)

  /** Every trip's travel time can be read. */
  predicate DurationsParse(trips: seq<Trip>) {
    forall i | 0 <= i < |trips| :: DurationToSeconds(trips[i].travelTime).Success?
  }

  /** What one trip adds to each of the four maps. */
  function One(trip: Trip): int { 1 }

  function TravelSeconds(trip: Trip): int {
    var d := DurationToSeconds(trip.travelTime);
    if d.Success? then d.value else 0
  }

  function TravelledDistance(trip: Trip): int { trip.travelledDistance }

  function BeelineDistance(trip: Trip): int { trip.beelineDistance }

  /** The sum of `value` over the trips of one mode. */
  function ModeSum(trips: seq<Trip>, mode: string, value: Trip -> int): int {
    if trips == [] then 0
    else ModeSum(trips[..|trips| - 1], mode, value) + (if trips[|trips| - 1].mainMode == mode then value(trips[|trips| - 1]) else 0)
  }

  /** The number of trips of a mode. */
  function ModeCount(trips: seq<Trip>, mode: string): int {
    ModeSum(trips, mode, One)
  }

  /** The four per-mode maps of the loop, and the order in which the count map met its modes. */
  datatype Tallies = Tallies(
    modes: seq<string>,
    count: map<string, int>,
    travelTime: map<string, int>,
    travelDistance: map<string, int>,
    beelineDistance: map<string, int>)

  /** Every map has a key for exactly the listed modes, each listed once. */
  ghost predicate WellKeyed(t: Tallies) {
    && (forall a, b | 0 <= a < b < |t.modes| :: t.modes[a] != t.modes[b])
    && (forall m :: m in t.count <==> m in t.modes)
    && t.travelTime.Keys == t.count.Keys
    && t.travelDistance.Keys == t.count.Keys
    && t.beelineDistance.Keys == t.count.Keys
  }

  /** Each key of `tally` holds the sum of `value` over that mode's trips. */
  ghost predicate Tracks(tally: map<string, int>, trips: seq<Trip>, value: Trip -> int) {
    forall m | m in tally :: tally[m] == ModeSum(trips, m, value)
  }

  /** The maps hold the tallies of `trips`, and the listed modes are exactly the trips' modes. */
  ghost predicate TalliesOf(t: Tallies, trips: seq<Trip>) {
    && WellKeyed(t)
    && (forall i | 0 <= i < |trips| :: trips[i].mainMode in t.count)
    && (forall m | m in t.count :: t.count[m] > 0)
    && Tracks(t.count, trips, One)
    && Tracks(t.travelTime, trips, TravelSeconds)
    && Tracks(t.travelDistance, trips, TravelledDistance)
    && Tracks(t.beelineDistance, trips, BeelineDistance)
  }

  /** `map.merge(key, value, sum)`: adds to the key's value, starting from nothing. */
  function Merge(m: map<string, int>, key: string, value: int): (r: map<string, int>)
    ensures r.Keys == m.Keys + {key}
    ensures r[key] == (if key in m then m[key] else 0) + value
    ensures forall k | k in m && k != key :: r[k] == m[k]
  {
    m[key := (if key in m then m[key] else 0) + value]
  }

  lemma ModeSumStep(trips: seq<Trip>, trip: Trip, mode: string, value: Trip -> int)
    ensures ModeSum(trips + [trip], mode, value) == ModeSum(trips, mode, value) + (if trip.mainMode == mode then value(trip) else 0)
  {
    assert (trips + [trip])[..|trips|] == trips;
  }

  /** A mode without trips sums to nothing. */
  lemma {:induction false} ModeSumAbsent(trips: seq<Trip>, mode: string, value: Trip -> int)
    requires forall i | 0 <= i < |trips| :: trips[i].mainMode != mode
    ensures ModeSum(trips, mode, value) == 0
  {
    if trips != [] {
      ModeSumAbsent(trips[..|trips| - 1], mode, value);
    }
  }

  /** Merging a trip's value into a map that tracks the earlier trips tracks them all. */
  lemma MergeTracks(tally: map<string, int>, trips: seq<Trip>, trip: Trip, value: Trip -> int)
    requires Tracks(tally, trips, value)
    requires trip.mainMode !in tally ==> forall i | 0 <= i < |trips| :: trips[i].mainMode != trip.mainMode
    ensures Tracks(Merge(tally, trip.mainMode, value(trip)), trips + [trip], value)
  {
    var merged := Merge(tally, trip.mainMode, value(trip));
    forall m | m in merged
      ensures merged[m] == ModeSum(trips + [trip], m, value)
    {
      ModeSumStep(trips, trip, m, value);
      if m == trip.mainMode && m !in tally {
        ModeSumAbsent(trips, m, value);
      }
    }
  }

  /** The tallies after one more trip. */
  function AddTrip(t: Tallies, trip: Trip, seconds: int): Tallies {
    var mode := trip.mainMode;
    Tallies(if mode in t.count then t.modes else t.modes + [mode],
            Merge(t.count, mode, 1), Merge(t.travelTime, mode, seconds),
            Merge(t.travelDistance, mode, trip.travelledDistance),
            Merge(t.beelineDistance, mode, trip.beelineDistance))
  }

  /** A new mode is listed once more, at the end; the keys follow the list. */
  lemma AddTripWellKeyed(t: Tallies, trip: Trip, seconds: int)
    requires WellKeyed(t)
    ensures WellKeyed(AddTrip(t, trip, seconds))
  {
    var u := AddTrip(t, trip, seconds);
    if trip.mainMode !in t.count {
      forall a, b | 0 <= a < b < |u.modes|
        ensures u.modes[a] != u.modes[b]
      {
        if b == |t.modes| {
          assert u.modes[a] == t.modes[a];
        }
      }
    }
  }

  /** Every trip so far, the new one included, has a key. */
  lemma AddTripCovers(t: Tallies, trips: seq<Trip>, trip: Trip, seconds: int)
    requires forall i | 0 <= i < |trips| :: trips[i].mainMode in t.count
    ensures forall i | 0 <= i < |trips + [trip]| :: (trips + [trip])[i].mainMode in AddTrip(t, trip, seconds).count
  {
    var all := trips + [trip];
    forall i | 0 <= i < |all|
      ensures all[i].mainMode in AddTrip(t, trip, seconds).count
    {
      if i < |trips| {
        assert all[i] == trips[i];
      }
    }
  }

  /** Counts start at one and only grow. */
  lemma AddTripPositive(t: Tallies, trip: Trip, seconds: int)
    requires forall m | m in t.count :: t.count[m] > 0
    ensures forall m | m in AddTrip(t, trip, seconds).count :: AddTrip(t, trip, seconds).count[m] > 0
  {
  }

  /** One trip added to the tallies of the trips before it. */
  lemma TallyStep(t: Tallies, trips: seq<Trip>, trip: Trip, seconds: int)
    requires DurationToSeconds(trip.travelTime) == Success(seconds)
    requires TalliesOf(t, trips)
    ensures TalliesOf(AddTrip(t, trip, seconds), trips + [trip])
  {
    assert One(trip) == 1 && TravelSeconds(trip) == seconds;
    MergeTracks(t.count, trips, trip, One);
    MergeTracks(t.travelTime, trips, trip, TravelSeconds);
    MergeTracks(t.travelDistance, trips, trip, TravelledDistance);
    MergeTracks(t.beelineDistance, trips, trip, BeelineDistance);
    AddTripWellKeyed(t, trip, seconds);
    AddTripCovers(t, trips, trip, seconds);
    AddTripPositive(t, trip, seconds);
  }

  lemma DurationsParseStep(trips: seq<Trip>, trip: Trip)
    requires DurationsParse(trips) && DurationToSeconds(trip.travelTime).Success?
    ensures DurationsParse(trips + [trip])
  {
    var all := trips + [trip];
    forall i | 0 <= i < |all|
      ensures DurationToSeconds(all[i].travelTime).Success?
    {
      if i < |trips| {
        assert all[i] == trips[i];
      }
    }
  }

  /**
   * The per-mode loop: for each trip, one more trip of its mode, plus its travel
   * time, travelled distance and straight-line distance. The first unreadable
   * travel time aborts the whole computation with its error.
   */
  method TallyByMode(trips: seq<Trip>) returns (r: Result<Tallies, DurationError>)
    ensures r.Success? <==> DurationsParse(trips)
    ensures r.Failure? ==> exists i | 0 <= i < |trips| ::
              DurationToSeconds(trips[i].travelTime) == Failure(r.error) && DurationsParse(trips[..i])
    ensures r.Success? ==> TalliesOf(r.value, trips)
  {
    var t := Tallies([], map[], map[], map[], map[]);
    var i := 0;
    while i < |trips|
      invariant 0 <= i <= |trips|
      invariant DurationsParse(trips[..i])
      invariant TalliesOf(t, trips[..i])
    {
      var trip := trips[i];
      var seconds := DurationToSeconds(trip.travelTime);
      if seconds.Failure? {
        assert !DurationsParse(trips);
        return Failure(seconds.error);
      }
      TallyStep(t, trips[..i], trip, seconds.value);
      DurationsParseStep(trips[..i], trip);
      PrefixStep(trips, i);
      t := AddTrip(t, trip, seconds.value);
      i := i + 1;
    }
    PrefixWhole(trips, i);
    return Success(t);
  }

  lemma PrefixStep<T>(s: seq<T>, i: int)
    requires 0 <= i < |s|
    ensures s[..i + 1] == s[..i] + [s[i]]
  {
  }

  lemma PrefixWhole<T>(s: seq<T>, i: int)
    requires i == |s|
    ensures s[..i] == s
  {
  }

  /** The counts of the listed modes, added up. */
  function CountTotal(trips: seq<Trip>, modes: seq<string>): int {
    if modes == [] then 0 else CountTotal(trips, modes[..|modes| - 1]) + ModeCount(trips, modes[|modes| - 1])
  }

  /** How often `mode` is listed. */
  function Occurrences(modes: seq<string>, mode: string): nat {
    if modes == [] then 0 else Occurrences(modes[..|modes| - 1], mode) + (if modes[|modes| - 1] == mode then 1 else 0)
  }

  lemma {:induction false} ListedOnce(modes: seq<string>, mode: string)
    requires forall a, b | 0 <= a < b < |modes| :: modes[a] != modes[b]
    ensures Occurrences(modes, mode) == if mode in modes then 1 else 0
  {
    if modes != [] {
      var init := modes[..|modes| - 1];
      ListedOnce(init, mode);
      assert forall a | 0 <= a < |init| :: init[a] != modes[|modes| - 1];
      assert mode in modes <==> mode in init || modes[|modes| - 1] == mode;
    }
  }

  /** Adding one trip adds one to the total for each time its mode is listed. */
  lemma {:induction false} CountTotalStep(trips: seq<Trip>, trip: Trip, modes: seq<string>)
    ensures CountTotal(trips + [trip], modes) == CountTotal(trips, modes) + Occurrences(modes, trip.mainMode)
  {
    if modes != [] {
      CountTotalStep(trips, trip, modes[..|modes| - 1]);
      ModeSumStep(trips, trip, modes[|modes| - 1], One);
    }
  }

  lemma {:induction false} CountsOfNoTrips(modes: seq<string>)
    ensures CountTotal([], modes) == 0
  {
    if modes != [] {
      CountsOfNoTrips(modes[..|modes| - 1]);
    }
  }

  /**
   * Every trip is counted once: over a list of distinct modes that covers every
   * trip, the counts add up to the number of trips.
   */
  lemma {:induction false} CountsAddUp(trips: seq<Trip>, modes: seq<string>)
    requires forall a, b | 0 <= a < b < |modes| :: modes[a] != modes[b]
    requires forall i | 0 <= i < |trips| :: trips[i].mainMode in modes
    ensures CountTotal(trips, modes) == |trips|
  {
    if trips != [] {
      var init := trips[..|trips| - 1];
      var last := trips[|trips| - 1];
      assert forall i | 0 <= i < |init| :: init[i] == trips[i];
      CountsAddUp(init, modes);
      assert init + [last] == trips;
      CountTotalStep(init, last, modes);
      ListedOnce(modes, last.mainMode);
    } else {
      CountsOfNoTrips(modes);
    }
  }

  /** The counts of a successful run add up to the number of trips. */
  lemma TalliesCountEveryTrip(t: Tallies, trips: seq<Trip>)
    requires TalliesOf(t, trips)
    ensures CountTotal(trips, t.modes) == |trips|
  {
    assert forall i | 0 <= i < |trips| :: trips[i].mainMode in t.modes;
    CountsAddUp(trips, t.modes);
  }
}
