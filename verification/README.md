# Bikeshare explorer: a verified model of its filtering, reports and raw-data pager

`bikeshare.py` is an interactive console script. It asks for a city, a month filter
and a weekday filter, loads that city's trip records, and keeps the rows that match
the filters. It then prints the most frequent travel times and stations, and on request
pages through the raw rows in chunks of a size the user picks. This project models
that logic in Dafny and proves its properties:

- `Filters` (`get_filters`): each prompt repeats until the lower-cased answer is in a
  fixed list. The console is modelled as a sequence of answers.
- `Loading` (`load_data`): month and weekday names become the numbers the date columns
  use (january = 1, monday = 0). Filtering is an order-preserving selection over a
  sequence of records.
- `Stats` (`time_stats`, `station_stats`): column modes and their hit counts, and the
  mode mapped back to a month or day name.
- `Paginator` (`raw_input`'s size prompt, `chunk_raw_input`): the cursor/flag state
  machine that decides which chunks are shown.
- `Frame`: the table as a class whose column list the reporters and `raw_input` change
  in place, plus one session iteration that runs them in the program's order.
- `Text`: ASCII `str.lower()` and `int()`. `Wrappers`: the `Option` type.

Running out of answers makes `input()` raise `EOFError`. At the filter prompts, the
"see raw data?" question and the paging prompts nothing catches it, and the run ends;
the model returns that end as an explicit outcome (`None`, `InputEnded`,
`InputExhausted`). The chunk-size prompt is different: its bare `except:` also catches
the `EOFError`, so once the answers run out without a non-zero integer it prints "The
input was not an integer" and asks again forever. The model reports that as
`SizePromptSpins` (see Findings).

Where the program's own comments and prompts promise more than the code does, the
model follows the code:

- `chunk_raw_input`'s docstring (bikeshare.py:210-212) says it asks "if more data
  needs to be displayed", and the prompt at bikeshare.py:219 asks "Do you want to
  continue (if any data left)". Both mean a "yes" shows the next chunk. The code leaves
  the cursor `i` unchanged on "yes", so the same chunk is shown again (see Findings).
- The size prompt at bikeshare.py:196 asks for "the number of hits" and says nothing
  about the sign. The code accepts any non-zero integer, negative ones included, and the
  model does too. A negative size makes `iloc[i:i+size]` a slice that ends before the
  table does.

## Model

| member | source | states |
|---|---|---|
| `Text.ParseShowRoundTrip` | bikeshare.py:196 | `int()` reads back the decimal rendering of every integer, so any non-zero integer, negative ones included, can be given as a size |
| `Text.ParseIgnoresSpaces` | bikeshare.py:196 | white space of any length before and after the number, ASCII separators U+001C to U+001F included, does not change what `int()` reads |
| `Text.Lower` | bikeshare.py:31 | the lower-cased answer keeps its length, has no capital letter left, turns each capital into the small letter at the same place in the alphabet, and keeps every other character |
| `Text.LowerKeepsLowercase` | bikeshare.py:31-39 | an answer without capitals, such as every entry of the city, month and day lists, is its own lower-case form |
| `Text.LowerIdempotent` | bikeshare.py:31 | lower-casing an already lower-cased answer changes nothing |
| `Filters.FirstAllowed` | bikeshare.py:30-39 | a prompt's result is the first answer whose lower-cased form is allowed; every earlier answer was rejected; there is no result exactly when no answer is allowed |
| `Filters.ReadChoice` | bikeshare.py:30-35 | the `while x not in list: x = input().lower()` loop (starting from the empty string) returns exactly `FirstAllowed` |
| `Filters.GetFilters` | bikeshare.py:13-42 | returns only with a city that is a key of `CITY_DATA`, a month in `month_list` and a day in `day_list`, after reading at least three answers |
| `Filters.RetriesThenSelects` | bikeshare.py:30-39 | invalid answers are skipped and answers are compared case-insensitively ("Chicago", "MARCH", "Friday") |
| `Loading.IndexOf` | bikeshare.py:70 | `list.index` gives the first position holding the value |
| `Loading.MonthNumber` | bikeshare.py:68-70 | a month name other than "all" maps to a number 1..6 whose `month_list` entry is that name |
| `Loading.DayNumber` | bikeshare.py:75-77 | a day name other than "all" maps to a weekday 0..6 whose `day_list` entry, one place on, is that name |
| `Loading.NameNumbers` | bikeshare.py:9-11 | january = 1, march = 3, june = 6; monday = 0, friday = 4, sunday = 6 |
| `Loading.Select` | bikeshare.py:72 | a boolean mask keeps exactly the rows passing it, and no more rows than it is given |
| `Loading.SelectIsSubsequence` | bikeshare.py:72 | the kept rows are an order-preserving subsequence of the input |
| `Loading.SelectCounts` | bikeshare.py:78 | each passing row is kept as often as it occurs; every other row is dropped |
| `Loading.SelectTwice` | bikeshare.py:72-78 | filtering by one mask and then another equals filtering once by both |
| `Loading.LoadData` | bikeshare.py:67-80 | with "all" for both filters no row is removed; a row is kept exactly when it is in the input and passes the month test and the weekday test |
| `Loading.LoadDataIsOneFilter` | bikeshare.py:67-78 | the result equals the single selection by both tests together, is an order-preserving subsequence, and keeps each passing row with its multiplicity |
| `Stats.Count` | bikeshare.py:91 | `np.count_nonzero(values == x)` is the multiplicity of `x` in the column |
| `Stats.Mode` | bikeshare.py:118-127 | a station or trip mode is a value of the column, and no value occurs more often than it |
| `Stats.FirstMax` | bikeshare.py:90 | the first position of a range holding the range's largest count: every earlier position holds less |
| `Stats.SmallestModeIsMode` | bikeshare.py:90-104 | on a non-empty date column, `mode()[0]` is a value of the column, no value occurs more often, and every smaller value occurs less often, as the sorted `mode()` result gives |
| `Stats.MajorityIsSmallestMode` | bikeshare.py:90 | a date value filling more than half of the column is the reported mode |
| `Stats.CountPair` | bikeshare.py:91 | two different values together occur at most as often as the column is long |
| `Stats.MajorityIsMode` | bikeshare.py:118-127 | a station or trip filling more than half of its column is the mode |
| `Stats.TimeStatsOf` | bikeshare.py:83-106 | fails on an empty table; on success the month is one of January to June and its name is `month_list[mode]`, the day name is `day_list[mode + 1]`, and the total is the row count |
| `Stats.TimeStatsMonthHits` | bikeshare.py:90-91 | the month hit count is the number of rows from the reported month; no month occurs more often, and every earlier month occurs less often |
| `Stats.TimeStatsDayHits` | bikeshare.py:97-98 | the weekday hit count is the number of rows from the reported weekday; no weekday occurs more often, and every earlier one occurs less often |
| `Stats.TimeStatsHourHits` | bikeshare.py:104-105 | the hour hit count is the number of rows starting in the reported hour; no hour occurs more often, and every earlier one occurs less often |
| `Stats.TimeStatsFailsExactly` | bikeshare.py:90-93 | `time_stats` fails exactly when the table is empty or every month of maximal count is past June, where `month_list[popular_month]` has no entry |
| `Stats.TieGoesToEarlierMonth` | bikeshare.py:90-93 | months 7 and 3 once each are reported as "march", because `mode()[0]` takes the smaller of the tied months |
| `Stats.TimeStatsNamesRoundTrip` | bikeshare.py:93-99 | the reported month and day names turn back, by `load_data`'s mapping, into the reported mode numbers |
| `Stats.TimeStatsDefined` | bikeshare.py:90-93 | a non-empty table whose months are all January to June always gets a report |
| `Stats.MarchScenario` | bikeshare.py:90-94 | ten rows of which six are from March report "march" with 6 hits of 10 |
| `Stats.StationStatsOf` | bikeshare.py:111-128 | fails exactly on an empty table; start and end station are modes of their columns; the trip is a mode of the "start - end" labels and is the trip of some row |
| `Stats.BirthYearSpan` | bikeshare.py:180 | `min()` and `max()` of the birth-year column skip empty cells: there is no value exactly when no row has a birth year, and otherwise the oldest and youngest are birth years of some rows that bound every other one |
| `Stats.UserStatsOf` | bikeshare.py:177-182 | `user_stats` fails exactly when the file has a birth-year column and no filtered row has a value in it; without the column it reports none; otherwise it reports the column's minimum and maximum |
| `Paginator.FirstSize` | bikeshare.py:194-199 | the size prompt takes the first answer that reads as a non-zero integer; every earlier answer was not an integer or was 0; there is none exactly when no answer qualifies |
| `Paginator.ReadSize` | bikeshare.py:194-199 | the `while size == 0` loop with its `try`/`except` returns exactly `FirstSize`; no result marks the point from which the source loop asks forever |
| `Paginator.SizeRetries` | bikeshare.py:194-199 | "0" and "ten" are asked again and "-3" is accepted |
| `Paginator.Chunk` | bikeshare.py:218 | for a cursor inside the table and a positive size, a chunk is the 1..size consecutive rows from the cursor, shorter than `size` only when it reaches the last row |
| `Paginator.NegativeSizeFirstChunk` | bikeshare.py:218 | with a negative size the first chunk is the table without its last `-size` rows (Python slice semantics) |
| `Paginator.Ask` | bikeshare.py:219-224 | the two `input()` calls of a round return exactly `RoundOf` |
| `Paginator.Pages` | bikeshare.py:214-224 | no chunk is shown at a cursor at or past the row count; paging from a cursor inside the table starts with the chunk at that cursor |
| `Paginator.Paginate` | bikeshare.py:214-224 | the `while answer and i < len` loop produces exactly the chunk starts and ending of `Pages` from cursor 0 |
| `Paginator.CursorStep` | bikeshare.py:219-224 | "yes" shows the same chunk again with the cursor unchanged; not-"yes" then "no" moves the cursor by exactly `size`; not-"yes" then anything else stops; missing answers end paging |
| `Paginator.AllYesRepeats` | bikeshare.py:219-220 | answering "yes" every time shows the first chunk once per answer plus once, and never reaches the end of the table |
| `Paginator.ChunkCountIsCeiling` | bikeshare.py:217 | the number of cursor positions inside the table, stepping by `size`, is the ceiling of the remaining rows divided by `size` |
| `Paginator.StepsAt` | bikeshare.py:224 | the j-th cursor position is `i + j * size` |
| `Paginator.ResumingWalksTable` | bikeshare.py:217-224 | declining to quit after every chunk shows chunks at `i, i + size, ...`, ceil((rows - i) / size) of them, and stops at the end of the table |
| `Paginator.TwelveRowsByFive` | bikeshare.py:217-224 | 12 rows in chunks of 5, never quitting: chunks at 0, 5, 10 of 5, 5 and 2 rows |
| `Paginator.IntendedAllYesWalksTable` | bikeshare.py:219-224 | in the corrected pager, answering "yes" every time shows ceil((rows - i) / size) chunks and stops at the end of the table |
| `Paginator.AllYesDiscrepancy` | bikeshare.py:219-224 | on 12 rows with size 5 and three "yes" answers the code shows chunk 0 four times, the corrected pager chunks 0, 5, 10 |
| `Frame.AddColumn` | bikeshare.py:103 | assigning a column adds its name and keeps every existing one |
| `Frame.DropColumns` | bikeshare.py:201 | dropping succeeds exactly when every named column exists, and then leaves exactly the other columns |
| `Frame.Displayed` | bikeshare.py:218 | `iloc[:, 1:]` shows every column of the table but the first, in their order, and nothing for a table without columns |
| `Frame.RawViewOf` | bikeshare.py:186-206 | the run ends at the first question exactly when there is no answer; declining is any first answer other than a case-insensitive "yes"; after a "yes" the size prompt asks forever exactly when no later answer is a non-zero integer; paging happens only after a "yes", with a non-zero size, never shows an analysis column and never starts a chunk past the table; the drop fails exactly when an analysis column is missing |
| `Frame.SizePromptSpinsAtEnd` | bikeshare.py:194-199 | "yes" then the end of the input, or "Yes", "ten", "0" and then the end, leave the size prompt asking forever |
| `Frame.IntendedRawViewOf` | bikeshare.py:194-199 | with the size prompt catching only `ValueError`, the viewer never asks forever: it ends with the input exactly when there is no answer or no size after a "yes", and otherwise behaves as written |
| `Frame.Table.Load` | bikeshare.py:58-80 | the table holds the filtered rows and the file's columns plus "month" and "day_of_week" |
| `Frame.Table.TimeStats` | bikeshare.py:83-106 | returns `TimeStatsOf` of the rows, keeps the rows, and adds "Start hour" when it gets that far |
| `Frame.Table.StationStats` | bikeshare.py:111-128 | returns `StationStatsOf` of the rows, keeps the rows, and adds "Start to End trip" |
| `Frame.Table.RawInput` | bikeshare.py:186-206 | returns `RawViewOf` of the table, keeps the rows, and removes the analysis columns exactly when paging starts |
| `Frame.DropRestoresHeader` | bikeshare.py:201 | on a file without analysis columns of its own, the loading and both reporters append exactly the four analysis columns, and the drop gives back the file's own columns |
| `Frame.ReportedTableShowsHeader` | bikeshare.py:201-205 | after both reporters, the drop never fails and shown rows print the file's columns but the first |
| `Frame.RawInputNeedsTimeStats` | bikeshare.py:201 | without the "Start hour" column (raw data asked for before `time_stats` ran) the drop fails once a size is given |
| `Frame.AnalysedKeepsUserStats` | bikeshare.py:177 | the added analysis columns do not change whether the table has a birth-year column |
| `Frame.RunIteration` | bikeshare.py:228-234 | one iteration reaches the raw-data prompt exactly when `time_stats` and `user_stats` succeed on the filtered rows; its reports and raw view are those of the filtered table; on a file without analysis columns of its own the viewer shows the file's columns but the first |

## Left out

- Reading the CSV file and parsing timestamps (`pd.read_csv`, `pd.to_datetime`, `.dt.month`, `.dt.dayofweek`, `.dt.hour`): library calls. A record carries its month, weekday and start hour as given fields. A missing or malformed file is not modelled.
- A record holds only the fields the modelled logic reads. Start and end times, trip duration and gender are not modelled, and neither are the values printed for each raw row.
- `trip_duration_stats`: floating-point sums and means.
- `user_stats`: the user-type and gender `value_counts` and the missing-gender count, which only print and cannot fail, and the most common birth year with its hit count. Only the birth-year minimum and maximum are modelled, because that is where the run can end. `trip_duration_stats` neither changes the table nor fails, so `Frame.RunIteration` skips it.
- Percentages in every report: floating-point division.
- Printing, wall-clock timing, and the restart loop of `main`. `Frame.RunIteration` models one iteration from validated filters; the restart question is not modelled.
- Stats.Mode: for station names and trips, states only that the result has maximal count, not which of several tied names pandas returns first (the first in sorted order, since `mode()` sorts its result). For the month, weekday and hour the smallest tied value is modelled.
- Stats.TimeStatsOf: reports hit counts and the row count, not the percentages computed from them.
- Text.Lower: lower-cases ASCII letters only; `str.lower()` also folds other Unicode letters.
- Text.ParseInt: accepts ASCII digits, one sign and ASCII white space (U+001C to U+001F included); `int()` also accepts underscores between digits, non-ASCII digits and non-ASCII white space.
- Paginator.ReadSize: the bare `except:` also swallows `KeyboardInterrupt`, so Ctrl-C at the size prompt is asked again instead of stopping the program. Interrupts are not modelled.

## Findings

| source | as written | input that shows it | evidently intended | confidence | as-written member | corrected member |
|---|---|---|---|---|---|---|
| bikeshare.py:219-224 | a "yes" at "Do you want to continue (if any data left)" leaves the cursor unchanged, so the same chunk is printed again and a user who keeps answering "yes" never gets past the first chunk | 12 rows, size 5, answers "yes", "yes", "YES": chunk 0 is shown four times and paging ends only when the answers run out | "yes" moves the cursor on by `size`, like not-"yes" followed by "no"; answering "yes" every time then shows ceil(rows / size) chunks | high; not executed | `Paginator.AllYesRepeats` | `Paginator.IntendedAllYesWalksTable` |
| bikeshare.py:194-199 | the size prompt's bare `except:` also catches the `EOFError` of an exhausted input, so it prints "The input was not an integer" and asks again without end | answers "yes" and then the end of the input (stdin closed) | only a non-integer answer is asked again, as the message says; the end of the input ends the program as at every other prompt | high; not executed | `Frame.SizePromptSpinsAtEnd` | `Frame.IntendedRawViewOf` |

The corrected pager is `Paginator.IntendedPages`. `AllYesDiscrepancy` puts the two
side by side. `Frame.RawViewOf` and `Frame.Table.RawInput` keep both behaviours as
written, because they model what the program does.
