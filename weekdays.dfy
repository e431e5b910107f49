/**
 * The weekday-to-row mapper: the timetable page lists the five weekdays
 * one under the other, nine table rows each, and `getRows` names the rows
 * of one weekday; `getSelector` turns a row number into the CSS selector
 * of that table row.
 */
module Weekdays {
  import opened Wrappers
  import opened Text

  /** The table rows of each weekday; the first of each is its header row. */
  const MonRows: seq<int> := [2, 3, 4, 5, 6, 7, 8, 9, 10]
  const TueRows: seq<int> := [11, 12, 13, 14, 15, 16, 17, 18, 19]
  const WedRows: seq<int> := [20, 21, 22, 23, 24, 25, 26, 27, 28]
  const ThuRows: seq<int> := [29, 30, 31, 32, 33, 34, 35, 36, 37]
  const FriRows: seq<int> := [38, 39, 40, 41, 42, 43, 44, 45, 46]

  /** The weekday names `getRows` accepts, in the order of the page. */
  const WeekdayNames: seq<string> := ["monday", "tuesday", "wednesday", "thursday", "friday"]

  /** `getRows`: the rows of a weekday, or "Invalid weekday". */
  function GetRows(weekday: string): (r: Result<seq<int>>)
    ensures r.Ok? <==> weekday in WeekdayNames
    ensures r.Err? ==> r.error == "Invalid weekday"
  {
    if weekday == "monday" then Ok(MonRows)
    else if weekday == "tuesday" then Ok(TueRows)
    else if weekday == "wednesday" then Ok(WedRows)
    else if weekday == "thursday" then Ok(ThuRows)
    else if weekday == "friday" then Ok(FriRows)
    else Err("Invalid weekday")
  }

  /** `n` consecutive row numbers from `first` on. */
  function RowRange(first: int, n: nat): (r: seq<int>)
    ensures |r| == n
    ensures forall i :: 0 <= i < n ==> r[i] == first + i
    decreases n
  {
    if n == 0 then [] else [first] + RowRange(first + 1, n - 1)
  }

  /** Each weekday's list is nine consecutive rows, one list at a time. */
  lemma MonRowsConsecutive()
    ensures MonRows == RowRange(2, 9)
  {
  }

  lemma TueRowsConsecutive()
    ensures TueRows == RowRange(11, 9)
  {
  }

  lemma WedRowsConsecutive()
    ensures WedRows == RowRange(20, 9)
  {
  }

  lemma ThuRowsConsecutive()
    ensures ThuRows == RowRange(29, 9)
  {
  }

  lemma FriRowsConsecutive()
    ensures FriRows == RowRange(38, 9)
  {
  }

  /**
   * The `k`-th weekday (Monday is 0) has the nine rows that start at
   * `2 + 9 * k`: Monday 2-10, Tuesday 11-19, Wednesday 20-28, Thursday
   * 29-37 and Friday 38-46.
   */
  lemma DayRows(k: nat)
    requires k < |WeekdayNames|
    ensures GetRows(WeekdayNames[k]) == Ok(RowRange(2 + 9 * k, 9))
  {
    if k == 0 { MonRowsConsecutive(); }
    else if k == 1 { TueRowsConsecutive(); }
    else if k == 2 { WedRowsConsecutive(); }
    else if k == 3 { ThuRowsConsecutive(); }
    else { FriRowsConsecutive(); }
  }

  /** The position of an accepted weekday name in the week. */
  function DayIndex(weekday: string): (k: nat)
    requires weekday in WeekdayNames
    ensures k < |WeekdayNames| && WeekdayNames[k] == weekday
  {
    if weekday == "monday" then 0
    else if weekday == "tuesday" then 1
    else if weekday == "wednesday" then 2
    else if weekday == "thursday" then 3
    else 4
  }

  /**
   * The rows of an accepted weekday, as row numbers: nine of them, one
   * after the other, from row `2 + 9 * k` for the `k`-th weekday.
   */
  lemma RowsOfWeekday(weekday: string)
    requires GetRows(weekday).Ok?
    ensures var rows := GetRows(weekday).value;
      |rows| == 9 &&
      forall i :: 0 <= i < 9 ==> rows[i] == 2 + 9 * DayIndex(weekday) + i
  {
    DayRows(DayIndex(weekday));
  }

  /** Two different weekdays share no row. */
  lemma RowsDisjoint(a: string, b: string)
    requires GetRows(a).Ok? && GetRows(b).Ok? && a != b
    ensures forall i, j :: 0 <= i < 9 && 0 <= j < 9 ==>
      GetRows(a).value[i] != GetRows(b).value[j]
  {
    RowsOfWeekday(a);
    RowsOfWeekday(b);
    assert DayIndex(a) != DayIndex(b);
  }

  /** The selector of a table row up to its row number. */
  const SelectorPrefix: string := "#divTT > table:nth-child(2) > tbody > tr:nth-child("

  /** Inside a row: the cell holding the slot label, and the module cell. */
  const TimeSelector: string := "td:nth-child(1) > small"
  const ModuleSelector: string := "td:nth-child(2) > small > small"

  /** `getSelector`: the CSS selector of table row `param`. */
  function GetSelector(param: int): string
  {
    SelectorPrefix + Itoa(param) + ")"
  }

  /** The text between the prefix and the closing parenthesis of a selector. */
  function SelectorArgument(selector: string): string
    requires |selector| > |SelectorPrefix|
  {
    selector[|SelectorPrefix|..|selector| - 1]
  }

  /**
   * A selector names its row: it has the fixed prefix and a closing
   * parenthesis, and the text between them reads back as the row number.
   */
  lemma SelectorNamesRow(param: int)
    requires MinInt <= param <= MaxInt
    ensures var s := GetSelector(param);
      |s| > |SelectorPrefix| + 1 && s[..|SelectorPrefix|] == SelectorPrefix && s[|s| - 1] == ')' &&
      ParseInt(SelectorArgument(s)) == Some(param)
  {
    var s := GetSelector(param);
    assert s[..|SelectorPrefix|] == SelectorPrefix;
    assert SelectorArgument(s) == Itoa(param);
    ParseItoa(param);
  }

  /** Different rows have different selectors. */
  lemma SelectorInjective(a: int, b: int)
    requires GetSelector(a) == GetSelector(b)
    ensures a == b
  {
    assert SelectorArgument(GetSelector(a)) == Itoa(a);
    assert SelectorArgument(GetSelector(b)) == Itoa(b);
    ItoaInjective(a, b);
  }
}
