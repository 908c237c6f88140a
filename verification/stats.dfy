/** The most-frequent-value reports of `time_stats` and `station_stats`. `mode()` lists
    every value of maximal count in sorted order and `[0]` takes the first: for the
    numeric date columns that is the smallest such value, which is modelled; for station
    names a mode is specified only as some value of maximal count. An empty table has no
    mode, and indexing it (`df.mode()[col][0]`) fails: that failure is `None` here. */
module Stats {
  import opened Wrappers
  import opened Filters
  import opened Loading

  /** `np.count_nonzero(values == x)`: how many entries equal `x`. */
  function Count<T(==)>(s: seq<T>, x: T): (c: nat)
    ensures c == multiset(s)[x]
  {
    if s == [] then 0
    else
      assert s == [s[0]] + s[1..];
      (if s[0] == x then 1 else 0) + Count(s[1..], x)
  }

  /** An entry of `cands` whose count in `s` no other entry of `cands` exceeds. */
  function MostFrequentOf<T(==)>(s: seq<T>, cands: seq<T>): (m: T)
    requires |cands| > 0
    ensures m in cands
    ensures forall c :: c in cands ==> Count(s, c) <= Count(s, m)
  {
    if |cands| == 1 then cands[0]
    else
      var best := MostFrequentOf(s, cands[1..]);
      if Count(s, cands[0]) >= Count(s, best) then cands[0] else best
  }

  /** `Series.mode()[0]`: a value of the column occurring at least as often as any other. */
  function Mode<T(==,!new)>(s: seq<T>): (m: T)
    requires |s| > 0
    ensures m in s
    ensures forall x :: Count(s, x) <= Count(s, m)
  {
    MostFrequentOf(s, s)
  }

  /** The first position in `lo..hi` holding the largest entry of `counts` there. */
  function FirstMax(counts: seq<nat>, lo: nat, hi: nat): (m: nat)
    requires lo <= hi < |counts|
    decreases hi - lo
    ensures lo <= m <= hi
    ensures forall x :: lo <= x <= hi ==> counts[x] <= counts[m]
    ensures forall x :: lo <= x < m ==> counts[x] < counts[m]
  {
    if lo == hi then lo
    else
      var best := FirstMax(counts, lo + 1, hi);
      if counts[lo] >= counts[best] then lo else best
  }

  /** The count of every value `0..size-1` in `s`. */
  function Tally(s: seq<int>, size: nat): (t: seq<nat>)
    ensures |t| == size && forall x :: 0 <= x < size ==> t[x] == Count(s, x)
  {
    seq(size, x requires 0 <= x < size => Count(s, x))
  }

  /** `Series.mode()[0]` on a column whose values lie in `lo..hi`: the smallest value of
      maximal count (`SmallestModeIsMode`). */
  function SmallestMode(s: seq<int>, lo: nat, hi: nat): (m: nat)
    requires lo <= hi
    ensures lo <= m <= hi
  {
    FirstMax(Tally(s, hi + 1), lo, hi)
  }

  /** On a non-empty column inside `lo..hi`, `SmallestMode` is a value of the column, no
      value at all occurs more often, and every smaller value occurs less often. */
  lemma SmallestModeIsMode(s: seq<int>, lo: nat, hi: nat)
    requires lo <= hi && |s| > 0
    requires forall i :: 0 <= i < |s| ==> lo <= s[i] <= hi
    ensures var m := SmallestMode(s, lo, hi);
      m in s && (forall x :: multiset(s)[x] <= multiset(s)[m]) &&
      (forall x :: x < m ==> multiset(s)[x] < multiset(s)[m])
  {
    var counts := Tally(s, hi + 1);
    var m := SmallestMode(s, lo, hi);
    assert s[0] in multiset(s);
    assert counts[s[0]] <= counts[m];
    forall x
      ensures multiset(s)[x] <= multiset(s)[m]
      ensures x < m ==> multiset(s)[x] < multiset(s)[m]
    {
      if x !in s {
        assert x !in multiset(s);
      } else {
        assert counts[x] == Count(s, x);
      }
    }
  }

  /** Two different values together occur at most as often as the column is long. */
  lemma {:induction false} CountPair<T>(s: seq<T>, a: T, b: T)
    requires a != b
    ensures Count(s, a) + Count(s, b) <= |s|
  {
    if s != [] {
      CountPair(s[1..], a, b);
    }
  }

  /** A value filling more than half of the column is its only mode. */
  lemma MajorityIsMode<T(!new)>(s: seq<T>, v: T)
    requires 2 * Count(s, v) > |s|
    ensures Mode(s) == v
  {
    var m := Mode(s);
    if m != v {
      CountPair(s, m, v);
    }
  }

  /** A value filling more than half of a column inside `lo..hi` is its reported mode. */
  lemma MajorityIsSmallestMode(s: seq<int>, lo: nat, hi: nat, v: int)
    requires lo <= hi && |s| > 0
    requires forall i :: 0 <= i < |s| ==> lo <= s[i] <= hi
    requires 2 * Count(s, v) > |s|
    ensures SmallestMode(s, lo, hi) == v
  {
    var m := SmallestMode(s, lo, hi);
    SmallestModeIsMode(s, lo, hi);
    if m != v {
      CountPair(s, m, v);
    }
  }

  function Months(rows: seq<Record>): (ms: seq<MonthNum>)
    ensures |ms| == |rows| && forall i :: 0 <= i < |rows| ==> ms[i] == rows[i].month
  {
    seq(|rows|, i requires 0 <= i < |rows| => rows[i].month)
  }

  function Days(rows: seq<Record>): (ds: seq<Weekday>)
    ensures |ds| == |rows| && forall i :: 0 <= i < |rows| ==> ds[i] == rows[i].dayOfWeek
  {
    seq(|rows|, i requires 0 <= i < |rows| => rows[i].dayOfWeek)
  }

  function Hours(rows: seq<Record>): (hs: seq<HourNum>)
    ensures |hs| == |rows| && forall i :: 0 <= i < |rows| ==> hs[i] == rows[i].hour
  {
    seq(|rows|, i requires 0 <= i < |rows| => rows[i].hour)
  }

  /** What `time_stats` reports: each mode, its name and its hit count, and the number
      of rows the percentages divide by. */
  datatype TimeReport = TimeReport(
    month: MonthNum, monthName: string, monthHits: nat,
    day: Weekday, dayName: string, dayHits: nat,
    hour: HourNum, hourHits: nat,
    total: nat)

  /** `time_stats`. It fails on an empty table, and also when the smallest most frequent
      month is past June, since `month_list` has no entry for it. */
  function TimeStatsOf(rows: seq<Record>): (r: Option<TimeReport>)
    ensures rows == [] ==> r.None?
    ensures r.Some? ==> r.value.total == |rows|
    ensures r.Some? ==> r.value.month <= 6 && r.value.monthName == MonthList[r.value.month]
    ensures r.Some? ==> r.value.dayName == DayList[r.value.day + 1]
  {
    if rows == [] then None
    else
      var months := Months(rows);
      var m := SmallestMode(months, 1, 12);
      if m >= |MonthList| then None
      else
        var days, hours := Days(rows), Hours(rows);
        var d, h := SmallestMode(days, 0, 6), SmallestMode(hours, 0, 23);
        Some(TimeReport(m, MonthList[m], Count(months, m),
                        d, DayList[d + 1], Count(days, d),
                        h, Count(hours, h), |rows|))
  }

  /** The month hit count is the number of rows from the reported month, no month occurs
      more often, and every earlier month occurs less often (ties go to the earliest
      month, as in the sorted `mode()` result). */
  lemma TimeStatsMonthHits(rows: seq<Record>)
    requires rows != []
    ensures TimeStatsOf(rows).Some? ==> var r := TimeStatsOf(rows).value;
      r.month in Months(rows) && r.monthHits == multiset(Months(rows))[r.month] &&
      (forall m :: multiset(Months(rows))[m] <= r.monthHits) &&
      (forall m :: m < r.month ==> multiset(Months(rows))[m] < r.monthHits)
  {
    SmallestModeIsMode(Months(rows), 1, 12);
  }

  /** The same for the weekday: the earliest weekday of maximal count, Monday first. */
  lemma TimeStatsDayHits(rows: seq<Record>)
    requires rows != []
    ensures TimeStatsOf(rows).Some? ==> var r := TimeStatsOf(rows).value;
      r.day in Days(rows) && r.dayHits == multiset(Days(rows))[r.day] &&
      (forall d :: multiset(Days(rows))[d] <= r.dayHits) &&
      (forall d :: d < r.day ==> multiset(Days(rows))[d] < r.dayHits)
  {
    SmallestModeIsMode(Days(rows), 0, 6);
  }

  /** The same for the start hour: the earliest hour of maximal count. */
  lemma TimeStatsHourHits(rows: seq<Record>)
    requires rows != []
    ensures TimeStatsOf(rows).Some? ==> var r := TimeStatsOf(rows).value;
      r.hour in Hours(rows) && r.hourHits == multiset(Hours(rows))[r.hour] &&
      (forall h :: multiset(Hours(rows))[h] <= r.hourHits) &&
      (forall h :: h < r.hour ==> multiset(Hours(rows))[h] < r.hourHits)
  {
    SmallestModeIsMode(Hours(rows), 0, 23);
  }

  /** A month of maximal count. */
  ghost predicate TopMonth(rows: seq<Record>, m: int)
  {
    1 <= m <= 12 && forall x :: multiset(Months(rows))[x] <= multiset(Months(rows))[m]
  }

  /** `time_stats` fails exactly on an empty table or when every month of maximal count
      is past June: a tie between a month past June and an earlier one is reported
      with the earlier month. */
  lemma TimeStatsFailsExactly(rows: seq<Record>)
    ensures TimeStatsOf(rows).None? <==> rows == [] || forall m :: TopMonth(rows, m) ==> m >= 7
  {
    if rows != [] {
      var months := Months(rows);
      var m0 := SmallestMode(months, 1, 12);
      SmallestModeIsMode(months, 1, 12);
      assert TopMonth(rows, m0);
      assert TimeStatsOf(rows).None? <==> m0 >= 7;
      if m0 >= 7 {
        forall m | TopMonth(rows, m) ensures m >= 7 {
          assert multiset(months)[m0] <= multiset(months)[m];
        }
      }
    }
  }

  /** Months 7 and 3 once each: the tie is reported as "march". */
  lemma TieGoesToEarlierMonth(rows: seq<Record>)
    requires Months(rows) == [7, 3]
    ensures TimeStatsOf(rows).Some? && TimeStatsOf(rows).value.monthName == "march"
  {
    TieModeIsThree(Months(rows));
    NameOfMonthThree(TimeStatsOf(rows).value.monthName);
  }

  lemma TieModeIsThree(s: seq<int>)
    requires s == [7, 3]
    ensures SmallestMode(s, 1, 12) == 3
  {
    SmallestModeIsMode(s, 1, 12);
    assert multiset(s) == multiset{7, 3};
  }

  /** Each reported name is the one `load_data` would turn back into the same number. */
  lemma TimeStatsNamesRoundTrip(rows: seq<Record>)
    ensures TimeStatsOf(rows).Some? ==> var r := TimeStatsOf(rows).value;
      r.monthName in MonthList && r.monthName != MonthList[0] && MonthNumber(r.monthName) == r.month
    ensures TimeStatsOf(rows).Some? ==> var r := TimeStatsOf(rows).value;
      r.dayName in DayList && r.dayName != DayList[0] && DayNumber(r.dayName) == r.day
  {
    if TimeStatsOf(rows).Some? {
      var r := TimeStatsOf(rows).value;
      MonthNameRoundTrip(r.month, r.monthName);
      DayNameRoundTrip(r.day, r.dayName);
    }
  }

  lemma MonthNameRoundTrip(m: MonthNum, name: string)
    requires m <= 6 && name == MonthList[m]
    ensures name in MonthList && name != MonthList[0] && MonthNumber(name) == m
  {
    MonthListDistinct(m, MonthNumber(name));
  }

  lemma DayNameRoundTrip(d: Weekday, name: string)
    requires name == DayList[d + 1]
    ensures name in DayList && name != DayList[0] && DayNumber(name) == d
  {
    DayListDistinct(d + 1, DayNumber(name) + 1);
  }

  lemma MonthListDistinct(i: nat, j: nat)
    requires i < |MonthList| && j < |MonthList| && MonthList[i] == MonthList[j]
    ensures i == j
  {
  }

  lemma DayListDistinct(i: nat, j: nat)
    requires i < |DayList| && j < |DayList| && DayList[i] == DayList[j]
    ensures i == j
  {
  }

  /** When every row is from January to June and the table is not empty, the report exists. */
  lemma TimeStatsDefined(rows: seq<Record>)
    requires rows != []
    requires forall rec :: rec in rows ==> rec.month <= 6
    ensures TimeStatsOf(rows).Some?
  {
  }

  /** Ten rows of which six are from March: "march - 6 hits" of 10. */
  lemma MarchScenario(rows: seq<Record>)
    requires |rows| == 10 && Count(Months(rows), 3) == 6
    ensures TimeStatsOf(rows).Some?
    ensures TimeStatsOf(rows).value.monthName == "march"
    ensures TimeStatsOf(rows).value.monthHits == 6 && TimeStatsOf(rows).value.total == 10
  {
    MajorityIsSmallestMode(Months(rows), 1, 12, 3);
    NameOfMonthThree(TimeStatsOf(rows).value.monthName);
  }

  lemma NameOfMonthThree(name: string)
    requires name == MonthList[3]
    ensures name == "march"
  {
  }

  /** `Start Station + ' - ' + End Station`. */
  function TripLabel(rec: Record): string
  {
    rec.startStation + " - " + rec.endStation
  }

  function Starts(rows: seq<Record>): (ss: seq<string>)
    ensures |ss| == |rows| && forall i :: 0 <= i < |rows| ==> ss[i] == rows[i].startStation
  {
    seq(|rows|, i requires 0 <= i < |rows| => rows[i].startStation)
  }

  function Ends(rows: seq<Record>): (es: seq<string>)
    ensures |es| == |rows| && forall i :: 0 <= i < |rows| ==> es[i] == rows[i].endStation
  {
    seq(|rows|, i requires 0 <= i < |rows| => rows[i].endStation)
  }

  function Trips(rows: seq<Record>): (ts: seq<string>)
    ensures |ts| == |rows| && forall i :: 0 <= i < |rows| ==> ts[i] == TripLabel(rows[i])
  {
    seq(|rows|, i requires 0 <= i < |rows| => TripLabel(rows[i]))
  }

  /** What `station_stats` reports: the three modes. */
  datatype StationReport = StationReport(start: string, end: string, trip: string)

  /** `station_stats`: the most frequent start station, end station and start-to-end trip,
      each chosen on its own. The trip is one some row actually made. */
  function StationStatsOf(rows: seq<Record>): (r: Option<StationReport>)
    ensures r.None? <==> rows == []
    ensures r.Some? ==> r.value.start in Starts(rows) && forall x :: Count(Starts(rows), x) <= Count(Starts(rows), r.value.start)
    ensures r.Some? ==> r.value.end in Ends(rows) && forall x :: Count(Ends(rows), x) <= Count(Ends(rows), r.value.end)
    ensures r.Some? ==> forall x :: Count(Trips(rows), x) <= Count(Trips(rows), r.value.trip)
    ensures r.Some? ==> exists rec :: rec in rows && TripLabel(rec) == r.value.trip
  {
    if rows == [] then None
    else
      var trip := Mode(Trips(rows));
      assert exists i :: 0 <= i < |rows| && Trips(rows)[i] == trip;
      Some(StationReport(Mode(Starts(rows)), Mode(Ends(rows)), trip))
  }

  /** The birth-year range `user_stats` prints: `min()` and `max()` of the column. */
  datatype YearSpan = YearSpan(oldest: int, youngest: int)

  /** `df['Birth Year'].min()` and `.max()`, which skip empty cells. `None` is the NaN
      they give when no row has a birth year. */
  function BirthYearSpan(rows: seq<Record>): (r: Option<YearSpan>)
    ensures r.None? <==> forall i :: 0 <= i < |rows| ==> rows[i].birthYear.None?
    ensures r.Some? ==> forall i :: 0 <= i < |rows| && rows[i].birthYear.Some? ==>
      r.value.oldest <= rows[i].birthYear.value <= r.value.youngest
    ensures r.Some? ==> exists i :: 0 <= i < |rows| && rows[i].birthYear == Some(r.value.oldest)
    ensures r.Some? ==> exists i :: 0 <= i < |rows| && rows[i].birthYear == Some(r.value.youngest)
  {
    if rows == [] then None
    else
      var rest := BirthYearSpan(rows[1..]);
      assert forall i :: 0 < i < |rows| ==> rows[i] == rows[1..][i - 1];
      match rows[0].birthYear
      case None => rest
      case Some(y) =>
        if rest.None? then Some(YearSpan(y, y))
        else
          var oldest := if y <= rest.value.oldest then y else rest.value.oldest;
          var youngest := if y >= rest.value.youngest then y else rest.value.youngest;
          Some(YearSpan(oldest, youngest))
  }

  const BirthYearColumn: string := "Birth Year"

  /** What `user_stats` reports about birth years: nothing when the file has no such
      column, otherwise the oldest and youngest. */
  datatype UserReport = NoBirthYearColumn | BirthYears(span: YearSpan)

  /** The part of `user_stats` that can end the run: `int(df['Birth Year'].min())` raises
      `ValueError` on the NaN of a column without any value, which is `None` here. */
  function UserStatsOf(columns: seq<string>, rows: seq<Record>): (r: Option<UserReport>)
    ensures r.None? <==> BirthYearColumn in columns && forall i :: 0 <= i < |rows| ==> rows[i].birthYear.None?
    ensures r == Some(NoBirthYearColumn) <==> BirthYearColumn !in columns
    ensures r.Some? && r.value.BirthYears? ==> Some(r.value.span) == BirthYearSpan(rows)
  {
    if BirthYearColumn !in columns then Some(NoBirthYearColumn)
    else
      match BirthYearSpan(rows)
      case None => None
      case Some(span) => Some(BirthYears(span))
  }
}
