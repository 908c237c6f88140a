/** The table one session iteration works on. `load_data` builds it; `time_stats` and
    `station_stats` add a column each to it in place; `raw_input` drops the four
    analysis columns in place and then pages through the rows. Column names are kept as
    the table's header; the values of the analysis columns are fields of each record. */
module Frame {
  import opened Wrappers
  import opened Text
  import opened Filters
  import opened Loading
  import opened Stats
  import opened Paginator

  const MonthColumn: string := "month"
  const DayColumn: string := "day_of_week"
  const HourColumn: string := "Start hour"
  const TripColumn: string := "Start to End trip"

  /** The columns added for analysis and dropped before raw rows are shown. */
  const AnalysisColumns: seq<string> := [MonthColumn, DayColumn, HourColumn, TripColumn]

  /** `df[name] = ...`: a new column goes last; assigning an existing one keeps its place. */
  function AddColumn(columns: seq<string>, name: string): (r: seq<string>)
    ensures forall c :: c in r <==> c in columns || c == name
    ensures name in columns ==> r == columns
  {
    if name in columns then columns else columns + [name]
  }

  /** The columns not named in `names`, in their order. */
  function Without(columns: seq<string>, names: seq<string>): (r: seq<string>)
    ensures forall c :: c in r <==> c in columns && c !in names
  {
    if columns == [] then []
    else (if columns[0] in names then [] else [columns[0]]) + Without(columns[1..], names)
  }

  /** `df.drop(names, axis = 1)`: `None` is the `KeyError` raised when a name is not a
      column, in which case nothing is dropped. */
  function DropColumns(columns: seq<string>, names: seq<string>): (r: Option<seq<string>>)
    ensures r.Some? <==> forall c :: c in names ==> c in columns
    ensures r.Some? ==> forall c :: c in r.value <==> c in columns && c !in names
  {
    if forall c :: c in names ==> c in columns then Some(Without(columns, names)) else None
  }

  /** `iloc[:, 1:]`: every column but the first, in their order. */
  function Displayed(columns: seq<string>): (r: seq<string>)
    ensures columns == [] ==> r == []
    ensures columns != [] ==> columns == [columns[0]] + r
  {
    if columns == [] then [] else columns[1..]
  }

  /** How `raw_input` ends: the answers ran out at a prompt that lets the `EOFError`
      through, the user declined, the size prompt was left asking forever (its bare
      `except` also swallows the `EOFError`), the drop failed because an analysis column
      was missing, or paging ran with a size and the columns every shown row prints. */
  datatype RawView =
    | InputEnded
    | Declined
    | SizePromptSpins
    | MissingColumns
    | Paged(size: int, shown: seq<string>, trace: Trace)

  /** `raw_input` on a table with these columns and `n` rows. The first answer is the
      "see raw data?" question, the next ones the size prompt, the rest go to paging. */
  function RawViewOf(columns: seq<string>, n: nat, input: seq<string>): (v: RawView)
    ensures v.InputEnded? <==> |input| == 0
    ensures v.Declined? <==> |input| > 0 && Lower(input[0]) != "yes"
    ensures v.SizePromptSpins? <==> |input| > 0 && Lower(input[0]) == "yes" && FirstSize(input, 1).None?
    ensures v.MissingColumns? <==> |input| > 0 && Lower(input[0]) == "yes" && FirstSize(input, 1).Some? &&
                                   exists c :: c in AnalysisColumns && c !in columns
    ensures v.Paged? ==> |input| > 0 && Lower(input[0]) == "yes" && v.size != 0
    ensures v.Paged? ==> forall c :: c in v.shown ==> c in columns && c !in AnalysisColumns
    ensures v.Paged? ==> forall j :: 0 <= j < |v.trace.starts| ==> v.trace.starts[j] < n
  {
    if |input| == 0 then InputEnded
    else if Lower(input[0]) != "yes" then Declined
    else
      match FirstSize(input, 1)
      case None => SizePromptSpins
      case Some(choice) =>
        match DropColumns(columns, AnalysisColumns)
        case None => MissingColumns
        case Some(kept) => Paged(choice.size, Displayed(kept), Pages(n, choice.size, input, choice.next, 0))
  }

  /** As written, a "yes" followed by the end of the input, or by answers none of which is
      a non-zero integer, leaves the size prompt repeating forever. */
  lemma SizePromptSpinsAtEnd(columns: seq<string>, n: nat)
    ensures RawViewOf(columns, n, ["yes"]) == SizePromptSpins
    ensures RawViewOf(columns, n, ["Yes", "ten", "0"]) == SizePromptSpins
  {
    assert Lower("yes") == "yes" && Lower("Yes") == "yes";
    ParseWord();
    ParseZero();
  }

  /** `raw_input` with the size prompt catching only `ValueError`: the end of the input
      then ends the viewer, like at its other prompts, instead of leaving it asking
      forever. Everything else is as written. */
  function IntendedRawViewOf(columns: seq<string>, n: nat, input: seq<string>): (v: RawView)
    ensures !v.SizePromptSpins?
    ensures v.InputEnded? <==> |input| == 0 || (Lower(input[0]) == "yes" && FirstSize(input, 1).None?)
    ensures !RawViewOf(columns, n, input).SizePromptSpins? ==> v == RawViewOf(columns, n, input)
  {
    if |input| == 0 then InputEnded
    else if Lower(input[0]) != "yes" then Declined
    else
      match FirstSize(input, 1)
      case None => InputEnded
      case Some(choice) =>
        match DropColumns(columns, AnalysisColumns)
        case None => MissingColumns
        case Some(kept) => Paged(choice.size, Displayed(kept), Pages(n, choice.size, input, choice.next, 0))
  }

  class Table {
    var columns: seq<string>
    var rows: seq<Record>

    /** `load_data`: the file's header and rows, the two date columns added, then the
        month and weekday filters applied. */
    constructor Load(header: seq<string>, all: seq<Record>, month: string, day: string)
      requires month in MonthList && day in DayList
      ensures columns == AddColumn(AddColumn(header, MonthColumn), DayColumn)
      ensures rows == LoadData(all, month, day)
    {
      columns := AddColumn(AddColumn(header, MonthColumn), DayColumn);
      rows := LoadData(all, month, day);
    }

    /** `time_stats`: the report, and the "Start hour" column added once it gets that far. */
    method TimeStats() returns (r: Option<TimeReport>)
      modifies this
      ensures rows == old(rows) && r == TimeStatsOf(rows)
      ensures columns == if r.Some? then AddColumn(old(columns), HourColumn) else old(columns)
    {
      r := TimeStatsOf(rows);
      if r.Some? {
        columns := AddColumn(columns, HourColumn);
      }
    }

    /** `station_stats`: the "Start to End trip" column is added before its mode is read. */
    method StationStats() returns (r: Option<StationReport>)
      modifies this
      ensures rows == old(rows) && r == StationStatsOf(rows)
      ensures columns == if r.Some? then AddColumn(old(columns), TripColumn) else old(columns)
    {
      r := StationStatsOf(rows);
      if r.Some? {
        columns := AddColumn(columns, TripColumn);
      }
    }

    /** `raw_input` with `chunk_raw_input`: the analysis columns are dropped in place just
        before paging starts. */
    method RawInput(input: seq<string>) returns (v: RawView)
      modifies this
      ensures rows == old(rows) && v == RawViewOf(old(columns), |rows|, input)
      ensures v.Paged? ==> DropColumns(old(columns), AnalysisColumns).Some? &&
                           columns == DropColumns(old(columns), AnalysisColumns).value
      ensures !v.Paged? ==> columns == old(columns)
    {
      if |input| == 0 {
        return InputEnded;
      }
      if Lower(input[0]) != "yes" {
        return Declined;
      }
      var choice := ReadSize(input, 1);
      if choice.None? {
        return SizePromptSpins;
      }
      var kept := DropColumns(columns, AnalysisColumns);
      if kept.None? {
        return MissingColumns;
      }
      columns := kept.value;
      var trace := Paginate(|rows|, choice.value.size, input, choice.value.next);
      v := Paged(choice.value.size, Displayed(columns), trace);
    }
  }

  lemma {:induction false} WithoutAppend(a: seq<string>, b: seq<string>, names: seq<string>)
    ensures Without(a + b, names) == Without(a, names) + Without(b, names)
  {
    if a == [] {
      assert a + b == b;
    } else {
      assert (a + b)[0] == a[0] && (a + b)[1..] == a[1..] + b;
      WithoutAppend(a[1..], b, names);
    }
  }

  lemma {:induction false} WithoutNone(columns: seq<string>, names: seq<string>)
    requires forall c :: c in names ==> c !in columns
    ensures Without(columns, names) == columns
  {
    if columns != [] {
      WithoutNone(columns[1..], names);
    }
  }

  lemma {:induction false} WithoutAll(columns: seq<string>, names: seq<string>)
    requires forall c :: c in columns ==> c in names
    ensures Without(columns, names) == []
  {
    if columns != [] {
      WithoutAll(columns[1..], names);
    }
  }

  /** The columns of a loaded table after both column-adding reporters have run. */
  function AnalysedColumns(header: seq<string>): seq<string>
  {
    AddColumn(AddColumn(AddColumn(AddColumn(header, MonthColumn), DayColumn), HourColumn), TripColumn)
  }

  /** When the file has no analysis column of its own, the drop before paging takes
      back exactly what the loading and the reporters added: the rows are shown with
      the file's own columns, the first one excepted. */
  lemma {:induction false} DropRestoresHeader(header: seq<string>)
    requires forall c :: c in AnalysisColumns ==> c !in header
    ensures AnalysedColumns(header) == header + AnalysisColumns
    ensures DropColumns(AnalysedColumns(header), AnalysisColumns) == Some(header)
  {
    var c1 := AddColumn(header, MonthColumn);
    assert c1 == header + [MonthColumn];
    var c2 := AddColumn(c1, DayColumn);
    assert DayColumn != MonthColumn;
    assert c2 == header + [MonthColumn, DayColumn];
    var c3 := AddColumn(c2, HourColumn);
    assert HourColumn != MonthColumn && HourColumn != DayColumn;
    assert c3 == header + [MonthColumn, DayColumn, HourColumn];
    var c4 := AddColumn(c3, TripColumn);
    assert TripColumn != MonthColumn && TripColumn != DayColumn && TripColumn != HourColumn;
    assert c4 == header + AnalysisColumns;
    WithoutAppend(header, AnalysisColumns, AnalysisColumns);
    WithoutNone(header, AnalysisColumns);
    WithoutAll(AnalysisColumns, AnalysisColumns);
    assert Without(c4, AnalysisColumns) == header + [];
    assert header + [] == header;
    assert forall c :: c in AnalysisColumns ==> c in c4;
    assert DropColumns(c4, AnalysisColumns) == Some(Without(c4, AnalysisColumns));
  }

  /** After both reporters, the raw rows are shown with the file's columns but the first. */
  lemma ReportedTableShowsHeader(header: seq<string>, n: nat, input: seq<string>)
    requires forall c :: c in AnalysisColumns ==> c !in header
    ensures !RawViewOf(AnalysedColumns(header), n, input).MissingColumns?
    ensures RawViewOf(AnalysedColumns(header), n, input).Paged? ==>
      RawViewOf(AnalysedColumns(header), n, input).shown == Displayed(header)
  {
    DropRestoresHeader(header);
  }

  /** `raw_input` depends on the reporters having run before it: on a table without the
      "Start hour" column (as `load_data` leaves it) the drop fails once a size is given. */
  lemma RawInputNeedsTimeStats(columns: seq<string>, n: nat, input: seq<string>)
    requires HourColumn !in columns
    requires |input| > 0 && Lower(input[0]) == "yes" && FirstSize(input, 1).Some?
    ensures RawViewOf(columns, n, input) == MissingColumns
  {
  }

  /** What one iteration of the session reaches before the restart question. */
  datatype Iteration =
    | Crashed
    | Reported(time: TimeReport, station: StationReport, users: UserReport, view: RawView)

  /** One session iteration on validated filters: load, `time_stats`, `station_stats`,
      `user_stats`, then `raw_input` (the duration report in between neither touches the
      table nor fails). An empty table or a month past June ends the run in
      `time_stats`; a birth-year column without any value ends it in `user_stats`. */
  method RunIteration(header: seq<string>, all: seq<Record>, month: string, day: string, answers: seq<string>)
    returns (r: Iteration)
    requires month in MonthList && day in DayList
    ensures var rows := LoadData(all, month, day);
      r.Reported? <==> TimeStatsOf(rows).Some? && UserStatsOf(header, rows).Some?
    ensures var rows := LoadData(all, month, day);
      r.Reported? ==> r.time == TimeStatsOf(rows).value && Some(r.station) == StationStatsOf(rows) &&
                      Some(r.users) == UserStatsOf(header, rows)
    ensures r.Reported? ==> r.view == RawViewOf(AnalysedColumns(header), |LoadData(all, month, day)|, answers)
    ensures r.Reported? && (forall c :: c in AnalysisColumns ==> c !in header) ==>
      !r.view.MissingColumns? && (r.view.Paged? ==> r.view.shown == Displayed(header))
  {
    var table := new Table.Load(header, all, month, day);
    var time := table.TimeStats();
    if time.None? {
      return Crashed;
    }
    var station := table.StationStats();
    assert table.columns == AnalysedColumns(header);
    AnalysedKeepsUserStats(header, table.rows);
    var users := UserStatsOf(table.columns, table.rows);
    if users.None? {
      return Crashed;
    }
    var view := table.RawInput(answers);
    r := Reported(time.value, station.value, users.value, view);
    if forall c :: c in AnalysisColumns ==> c !in header {
      ReportedTableShowsHeader(header, |table.rows|, answers);
    }
  }

  /** The analysis columns are not the birth-year column, so `user_stats` on the analysed
      table reports as on the file's own columns. */
  lemma AnalysedKeepsUserStats(header: seq<string>, rows: seq<Record>)
    ensures UserStatsOf(AnalysedColumns(header), rows) == UserStatsOf(header, rows)
  {
    assert BirthYearColumn in AnalysedColumns(header) <==> BirthYearColumn in header;
  }
}
