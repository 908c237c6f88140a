/** Filter selection (`get_filters`): three prompts, each repeated until the lower-cased
    answer belongs to a fixed list. The console is a sequence of answers read from a
    position on; running out of answers is the `EOFError` that `input()` raises. */
module Filters {
  import opened Wrappers
  import opened Text

  /** City name to data file (`CITY_DATA`). */
  const CityData: map<string, string> :=
    map["chicago" := "chicago.csv",
        "new york city" := "new_york_city.csv",
        "washington" := "washington.csv"]

  /** `month_list`: "all" at 0, so a month's position is its calendar number. */
  const MonthList: seq<string> := ["all", "january", "february", "march", "april", "may", "june"]

  /** `day_list`: "all" at 0, so a day's position is one more than its weekday number. */
  const DayList: seq<string> :=
    ["all", "monday", "tuesday", "wednesday", "thursday", "friday", "saturday", "sunday"]

  function Members(xs: seq<string>): set<string>
  {
    set x | x in xs
  }

  /** An accepted answer and the position of the next unread answer. */
  datatype Choice = Choice(value: string, next: nat)

  /** What one prompt loop returns: the first answer at or after `k` whose lower-cased
      form is allowed; every earlier answer was rejected and simply asked again. */
  function FirstAllowed(input: seq<string>, k: nat, allowed: set<string>): (r: Option<Choice>)
    decreases |input| - k
    ensures r.Some? ==> r.value.value in allowed
    ensures r.Some? ==> k < r.value.next <= |input| && Lower(input[r.value.next - 1]) == r.value.value
    ensures r.Some? ==> forall j :: k <= j < r.value.next - 1 ==> Lower(input[j]) !in allowed
    ensures r.None? <==> forall j :: k <= j < |input| ==> Lower(input[j]) !in allowed
  {
    if k >= |input| then None
    else if Lower(input[k]) in allowed then Some(Choice(Lower(input[k]), k + 1))
    else FirstAllowed(input, k + 1, allowed)
  }

  /** One `while x not in allowed: x = input().lower()` loop. The variable starts as the
      empty string, which no list holds, so the loop always asks at least once. */
  method ReadChoice(input: seq<string>, k: nat, allowed: set<string>) returns (r: Option<Choice>)
    requires "" !in allowed
    ensures r == FirstAllowed(input, k, allowed)
  {
    var value := "";
    var pos: nat := k;
    while value !in allowed
      invariant value !in allowed ==> FirstAllowed(input, pos, allowed) == FirstAllowed(input, k, allowed)
      invariant value in allowed ==> FirstAllowed(input, k, allowed) == Some(Choice(value, pos))
      decreases if value in allowed then 0 else 1, |input| - pos
    {
      if pos >= |input| {
        return None;
      }
      value := Lower(input[pos]);
      pos := pos + 1;
    }
    r := Some(Choice(value, pos));
  }

  /** The three validated answers of `get_filters` and the next unread answer. */
  datatype Selection = Selection(city: string, month: string, day: string, next: nat)

  function SelectionOf(input: seq<string>, k: nat): Option<Selection>
  {
    match FirstAllowed(input, k, CityData.Keys)
    case None => None
    case Some(city) =>
      match FirstAllowed(input, city.next, Members(MonthList))
      case None => None
      case Some(month) =>
        match FirstAllowed(input, month.next, Members(DayList))
        case None => None
        case Some(day) => Some(Selection(city.value, month.value, day.value, day.next))
  }

  /** `get_filters`: returns only with a known city, a listed month and a listed day. */
  method GetFilters(input: seq<string>, k: nat) returns (r: Option<Selection>)
    ensures r == SelectionOf(input, k)
    ensures r.Some? ==> r.value.city in CityData && r.value.month in MonthList && r.value.day in DayList
    ensures r.Some? ==> k + 3 <= r.value.next <= |input|
  {
    assert "" !in MonthList && "" !in DayList;
    var city := ReadChoice(input, k, CityData.Keys);
    if city.None? {
      return None;
    }
    var month := ReadChoice(input, city.value.next, Members(MonthList));
    if month.None? {
      return None;
    }
    var day := ReadChoice(input, month.value.next, Members(DayList));
    if day.None? {
      return None;
    }
    r := Some(Selection(city.value.value, month.value.value, day.value.value, day.value.next));
  }

  /** A rejected answer followed by an accepted one: the prompt is shown twice. */
  lemma RejectThenAccept(input: seq<string>, k: nat, allowed: set<string>, first: string, second: string)
    requires k + 1 < |input| && Lower(input[k]) == first && Lower(input[k + 1]) == second
    requires first !in allowed && second in allowed
    ensures FirstAllowed(input, k, allowed) == Some(Choice(second, k + 2))
  {
  }

  lemma LowerExamples()
    ensures Lower("paris") == "paris" && Lower("Chicago") == "chicago"
    ensures Lower("july") == "july" && Lower("MARCH") == "march"
    ensures Lower("") == "" && Lower("Friday") == "friday"
  {
  }

  /** Answers are compared case-insensitively, and invalid ones are skipped: three
      rejected answers and then "Chicago", "MARCH", "Friday" select chicago, march, friday. */
  lemma RetriesThenSelects()
    ensures SelectionOf(["paris", "Chicago", "july", "MARCH", "", "Friday"], 0)
         == Some(Selection("chicago", "march", "friday", 6))
  {
    var input := ["paris", "Chicago", "july", "MARCH", "", "Friday"];
    LowerExamples();
    RejectThenAccept(input, 0, CityData.Keys, "paris", "chicago");
    RejectThenAccept(input, 2, Members(MonthList), "july", "march");
    RejectThenAccept(input, 4, Members(DayList), "", "friday");
  }
}
