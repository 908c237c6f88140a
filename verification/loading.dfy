/** Data loading and filtering (`load_data`). Reading the CSV file and parsing timestamps
    are outside the model: a trip record arrives with its derived calendar month,
    weekday (Monday = 0) and start hour already computed. */
module Loading {
  import opened Wrappers
  import opened Filters

  /** `Series.dt.month`. */
  type MonthNum = m: int | 1 <= m <= 12 witness 1
  /** `Series.dt.dayofweek`: Monday = 0 ... Sunday = 6. */
  type Weekday = d: int | 0 <= d <= 6
  /** `Series.dt.hour`. */
  type HourNum = h: int | 0 <= h <= 23

  /** One trip row. `id` is the file's first, unnamed column, which the raw-data
      viewer leaves out. `birthYear` is `None` where the cell is empty (NaN), and in
      every row of a file without that column. */
  datatype Record = Record(
    id: int,
    startStation: string,
    endStation: string,
    userType: string,
    birthYear: Option<int>,
    month: MonthNum,
    dayOfWeek: Weekday,
    hour: HourNum)

  /** `list.index`: the first position holding `x`. */
  function IndexOf(xs: seq<string>, x: string): (i: nat)
    requires x in xs
    ensures i < |xs| && xs[i] == x
    ensures forall j :: 0 <= j < i ==> xs[j] != x
  {
    if xs[0] == x then 0 else 1 + IndexOf(xs[1..], x)
  }

  /** `month_list.index(month)`: january = 1 ... june = 6. */
  function MonthNumber(month: string): (n: MonthNum)
    requires month in MonthList && month != MonthList[0]
    ensures n <= 6 && MonthList[n] == month
  {
    IndexOf(MonthList, month)
  }

  /** `day_list.index(day) - 1`: monday = 0 ... sunday = 6. */
  function DayNumber(day: string): (d: Weekday)
    requires day in DayList && day != DayList[0]
    ensures DayList[d + 1] == day
  {
    IndexOf(DayList, day) - 1
  }

  /** The month and day names map to the numbers the date columns use. */
  lemma NameNumbers()
    ensures MonthNumber("january") == 1 && MonthNumber("march") == 3 && MonthNumber("june") == 6
    ensures DayNumber("monday") == 0 && DayNumber("friday") == 4 && DayNumber("sunday") == 6
  {
  }

  /** Boolean-mask indexing `df[mask]`: the rows for which `keep` holds, in their order. */
  function Select(rows: seq<Record>, keep: Record -> bool): (r: seq<Record>)
    ensures |r| <= |rows|
    ensures forall x :: x in r ==> x in rows && keep(x)
    ensures forall x :: x in rows && keep(x) ==> x in r
  {
    if rows == [] then []
    else (if keep(rows[0]) then [rows[0]] else []) + Select(rows[1..], keep)
  }

  /** `a` is `b` with some elements removed, the rest in their original order. */
  predicate IsSubsequence(a: seq<Record>, b: seq<Record>)
    decreases |b|
  {
    a == [] || (b != [] && ((a[0] == b[0] && IsSubsequence(a[1..], b[1..])) || IsSubsequence(a, b[1..])))
  }

  lemma {:induction false} SelectIsSubsequence(rows: seq<Record>, keep: Record -> bool)
    ensures IsSubsequence(Select(rows, keep), rows)
  {
    if rows != [] {
      SelectIsSubsequence(rows[1..], keep);
      var rest := Select(rows[1..], keep);
      if keep(rows[0]) {
        assert Select(rows, keep) == [rows[0]] + rest;
        assert ([rows[0]] + rest)[1..] == rest;
      } else {
        assert Select(rows, keep) == rest;
      }
    }
  }

  /** Every kept row is kept as many times as it occurs; every other row is dropped. */
  lemma {:induction false} SelectCounts(rows: seq<Record>, keep: Record -> bool, x: Record)
    ensures multiset(Select(rows, keep))[x] == if keep(x) then multiset(rows)[x] else 0
  {
    if rows != [] {
      SelectCounts(rows[1..], keep, x);
      assert rows == [rows[0]] + rows[1..];
    }
  }

  /** Masks that agree on every row select the same rows. */
  lemma {:induction false} SelectAgrees(rows: seq<Record>, p: Record -> bool, q: Record -> bool)
    requires forall x :: x in rows ==> p(x) == q(x)
    ensures Select(rows, p) == Select(rows, q)
  {
    if rows != [] {
      SelectAgrees(rows[1..], p, q);
    }
  }

  /** Filtering twice is filtering once by both masks. */
  lemma {:induction false} SelectTwice(rows: seq<Record>, p: Record -> bool, q: Record -> bool, both: Record -> bool)
    requires forall x :: both(x) == (p(x) && q(x))
    ensures Select(Select(rows, p), q) == Select(rows, both)
  {
    if rows != [] {
      SelectTwice(rows[1..], p, q, both);
      var rest := Select(rows[1..], p);
      if p(rows[0]) {
        var once := [rows[0]] + rest;
        assert Select(rows, p) == once;
        assert once[0] == rows[0] && once[1..] == rest;
        assert Select(once, q) == (if q(rows[0]) then [rows[0]] else []) + Select(rest, q);
      } else {
        assert Select(rows, p) == rest;
      }
    }
  }

  lemma {:induction false} SelectAll(rows: seq<Record>, keep: Record -> bool)
    requires forall x :: x in rows ==> keep(x)
    ensures Select(rows, keep) == rows
  {
    if rows != [] {
      SelectAll(rows[1..], keep);
    }
  }

  /** The month test of `load_data`: "all" keeps every row. */
  predicate MonthMatches(month: string, rec: Record)
    requires month in MonthList
  {
    month == MonthList[0] || rec.month == MonthNumber(month)
  }

  /** The weekday test of `load_data`: "all" keeps every row. */
  predicate DayMatches(day: string, rec: Record)
    requires day in DayList
  {
    day == DayList[0] || rec.dayOfWeek == DayNumber(day)
  }

  /** The mask `df.month == m`. */
  function MonthMask(m: MonthNum): Record -> bool
  {
    (rec: Record) => rec.month == m
  }

  /** The mask `df.day_of_week == d`. */
  function DayMask(d: Weekday): Record -> bool
  {
    (rec: Record) => rec.dayOfWeek == d
  }

  /** Both tests of `load_data` as one mask. */
  function BothMask(month: string, day: string): Record -> bool
    requires month in MonthList && day in DayList
  {
    (rec: Record) => MonthMatches(month, rec) && DayMatches(day, rec)
  }

  /** `load_data` after reading the file: the month mask, then the weekday mask. */
  function LoadData(rows: seq<Record>, month: string, day: string): (r: seq<Record>)
    requires month in MonthList && day in DayList
    ensures month == MonthList[0] && day == DayList[0] ==> r == rows
    ensures forall x :: x in r <==> x in rows && MonthMatches(month, x) && DayMatches(day, x)
  {
    var byMonth := if month != MonthList[0] then Select(rows, MonthMask(MonthNumber(month))) else rows;
    if day != DayList[0] then Select(byMonth, DayMask(DayNumber(day))) else byMonth
  }

  /** The result is exactly the rows passing both tests together, in their order, each
      as often as in the file. */
  lemma {:induction false} LoadDataIsOneFilter(rows: seq<Record>, month: string, day: string)
    requires month in MonthList && day in DayList
    ensures LoadData(rows, month, day) == Select(rows, BothMask(month, day))
    ensures IsSubsequence(LoadData(rows, month, day), rows)
    ensures forall x :: multiset(LoadData(rows, month, day))[x]
                     == if MonthMatches(month, x) && DayMatches(day, x) then multiset(rows)[x] else 0
  {
    var both := BothMask(month, day);
    if month == MonthList[0] && day == DayList[0] {
      SelectAll(rows, both);
    } else if month == MonthList[0] {
      SelectAgrees(rows, DayMask(DayNumber(day)), both);
    } else if day == DayList[0] {
      SelectAgrees(rows, MonthMask(MonthNumber(month)), both);
    } else {
      SelectTwice(rows, MonthMask(MonthNumber(month)), DayMask(DayNumber(day)), both);
    }
    SelectIsSubsequence(rows, both);
    forall x {
      SelectCounts(rows, both, x);
    }
  }
}
