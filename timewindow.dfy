/**
 * The time-window resolver: checks a start/end pair of slot labels against
 * the grid of slot labels and expands it into the slots to look at
 * (`getTimes`). The operations take the grid as a parameter `grid`; the
 * program always passes `SupportedTimes`, and `SupportedTimesHourGrid`
 * shows that it has the shape the operations ask for.
 */
module TimeWindow {
  import opened Wrappers
  import opened Text

  /** The eight slot labels of the timetable, in hour order. */
  const SupportedTimes: seq<string> :=
    ["9:15", "10:15", "11:15", "12:15", "13:15", "14:15", "15:15", "16:15"]

  /** `contains`: a scan of `times` that stops at the first equal element. */
  method Contains(time: string, times: seq<string>) returns (r: bool)
    ensures r <==> time in times
  {
    var i := 0;
    while i < |times|
      invariant i <= |times|
      invariant time !in times[..i]
    {
      if times[i] == time {
        return true;
      }
      i := i + 1;
    }
    assert times[..i] == times;
    return false;
  }

  /** `validTime`: whether a label is one of the grid's. */
  method ValidTime(grid: seq<string>, t: string) returns (r: bool)
    ensures r <==> t in grid
  {
    r := Contains(t, grid);
  }

  /** What `clockwise` parses out of a label: the number before the first ':'. */
  function Hour(t: string): Option<int>
  {
    ParseInt(Split(t, ':')[0])
  }

  /**
   * The answer of `clockwise(a, b)`: the hour of `b` is after the hour of
   * `a`. Where a label does not parse the program ends, so this asks that
   * both parse.
   */
  function Later(a: string, b: string): bool
    requires Hour(a).Some? && Hour(b).Some?
  {
    Hour(b).value > Hour(a).value
  }

  /** A grid whose labels have the hours 9, 10, 11, ... in order. */
  predicate HourGrid(grid: seq<string>)
  {
    forall i {:trigger Hour(grid[i])} :: 0 <= i < |grid| ==> Hour(grid[i]) == Some(9 + i)
  }

  /** The hour of a label `h:15` is what `ParseInt` makes of `h`. */
  lemma HourOfLabel(h: string)
    requires ':' !in h
    ensures Hour(h + ":15") == ParseInt(h)
  {
    SplitNoSeparator("15", ':');
    SplitFirstPiece(h, ':', "15");
    assert h + ":15" == h + [':'] + "15";
  }

  /** The label of the slot that starts at hour `h`: "9:15" for 9. */
  function Label(h: nat): string
  {
    Itoa(h) + ":15"
  }

  /** The label of an hour below 100 has that hour. */
  lemma LabelHour(h: nat)
    requires h < 100
    ensures Hour(Label(h)) == Some(h)
  {
    assert AllDigits(Itoa(h));
    HourOfLabel(Itoa(h));
    ParseItoa(h);
  }

  /** The grid holds the labels of the hours 9 to 16, in order. */
  lemma GridLabel(i: nat)
    requires i < |SupportedTimes|
    ensures SupportedTimes[i] == Label(9 + i)
  {
    if i == 0 { assert Itoa(9) == "9"; }
    else if i == 1 { assert Itoa(10) == "10"; }
    else if i == 2 { assert Itoa(11) == "11"; }
    else if i == 3 { assert Itoa(12) == "12"; }
    else if i == 4 { assert Itoa(13) == "13"; }
    else if i == 5 { assert Itoa(14) == "14"; }
    else if i == 6 { assert Itoa(15) == "15"; }
    else { assert Itoa(16) == "16"; }
  }

  /**
   * Every label of `SupportedTimes` parses, and the hours run from 9 to 16:
   * the parse failure that would end the program cannot happen on it.
   */
  lemma SupportedTimesHourGrid()
    ensures HourGrid(SupportedTimes)
  {
    forall i | 0 <= i < |SupportedTimes| ensures Hour(SupportedTimes[i]) == Some(9 + i) {
      GridLabel(i);
      LabelHour(9 + i);
    }
  }

  /**
   * The position of a label on an hour grid, read off its hour: the label
   * sits at its hour less 9, so no label appears twice.
   */
  ghost function Position(grid: seq<string>, t: string): (i: nat)
    requires HourGrid(grid) && t in grid
    ensures i < |grid| && grid[i] == t
    ensures forall j :: 0 <= j < |grid| && grid[j] == t ==> j == i
  {
    var k :| 0 <= k < |grid| && grid[k] == t;
    assert forall j :: 0 <= j < |grid| && grid[j] == t ==> Hour(grid[j]) == Some(9 + k);
    k
  }

  /** A label on an hour grid has the hour of its position. */
  lemma PositionHour(grid: seq<string>, t: string)
    requires HourGrid(grid) && t in grid
    ensures Hour(t) == Some(9 + Position(grid, t))
  {
    assert Hour(grid[Position(grid, t)]) == Some(9 + Position(grid, t));
  }

  /** On an hour grid `Later` is the order of positions. */
  lemma ClockwiseOnGrid(grid: seq<string>, i: nat, j: nat)
    requires HourGrid(grid) && i < |grid| && j < |grid|
    ensures Hour(grid[i]).Some? && Hour(grid[j]).Some?
    ensures Later(grid[i], grid[j]) <==> i < j
  {
    assert Hour(grid[i]) == Some(9 + i) && Hour(grid[j]) == Some(9 + j);
  }

  /**
   * The result `getTimes` promises: "Invalid time (s)" when a label is off
   * the grid or the end's hour is before the start's, otherwise the run of
   * grid labels from the start to the end.
   */
  ghost function Window(grid: seq<string>, start: string, end: string): (r: Result<seq<string>>)
    requires HourGrid(grid)
    ensures r.Err? <==>
      start !in grid || end !in grid || Position(grid, end) < Position(grid, start)
    ensures r.Err? ==> r.error == "Invalid time (s)"
  {
    if start !in grid || end !in grid then
      Err("Invalid time (s)")
    else
      var s, e := Position(grid, start), Position(grid, end);
      PositionHour(grid, start);
      PositionHour(grid, end);
      if !(start == end || Later(start, end)) then
        Err("Invalid time (s)")
      else
        Ok(grid[s..e + 1])
  }

  /** The window of an ordered pair of grid labels is the run between them. */
  lemma WindowOfOrderedPair(grid: seq<string>, start: string, end: string)
    requires HourGrid(grid) && start in grid && end in grid
    requires Position(grid, start) <= Position(grid, end)
    ensures Window(grid, start, end) == Ok(grid[Position(grid, start)..Position(grid, end) + 1])
  {
    PositionHour(grid, start);
    PositionHour(grid, end);
  }

  /** A window starts at the start label and ends at the end label. */
  lemma WindowEnds(grid: seq<string>, start: string, end: string)
    requires HourGrid(grid) && Window(grid, start, end).Ok?
    ensures var w := Window(grid, start, end).value;
      |w| > 0 && w[0] == start && w[|w| - 1] == end
    ensures start == end ==> Window(grid, start, end).value == [start]
  {
    var s, e := Position(grid, start), Position(grid, end);
    var w := grid[s..e + 1];
    WindowOfOrderedPair(grid, start, end);
    assert w[0] == grid[s] && w[|w| - 1] == grid[e];
    if start == end {
      assert w == [start];
    }
  }

  /**
   * A window is in grid order and has no gaps: it holds exactly the grid
   * labels whose hour is neither before the start's nor after the end's,
   * each at its offset from the start.
   */
  lemma WindowIsGridRun(grid: seq<string>, start: string, end: string)
    requires HourGrid(grid) && Window(grid, start, end).Ok?
    ensures var w := Window(grid, start, end).value;
      forall i :: 0 <= i < |w| ==> w[i] in grid && Position(grid, w[i]) == Position(grid, start) + i
    ensures var w := Window(grid, start, end).value;
      forall t :: t in w <==>
        t in grid && Position(grid, start) <= Position(grid, t) <= Position(grid, end)
  {
    var s, e := Position(grid, start), Position(grid, end);
    var w := grid[s..e + 1];
    WindowOfOrderedPair(grid, start, end);
    forall k | 0 <= k < |w| ensures w[k] in grid && Position(grid, w[k]) == s + k {
      assert w[k] == grid[s + k];
    }
    forall t | t in grid && s <= Position(grid, t) <= e ensures t in w {
      assert w[Position(grid, t) - s] == t;
    }
  }

  /** The hours of a window strictly increase, so it holds no label twice. */
  lemma WindowHoursIncrease(grid: seq<string>, start: string, end: string)
    requires HourGrid(grid) && Window(grid, start, end).Ok?
    ensures var w := Window(grid, start, end).value;
      forall i, j :: 0 <= i < j < |w| ==>
        Hour(w[i]).Some? && Hour(w[j]).Some? && Hour(w[i]).value < Hour(w[j]).value
    ensures var w := Window(grid, start, end).value;
      forall i, j :: 0 <= i < j < |w| ==> w[i] != w[j]
  {
    var w := Window(grid, start, end).value;
    WindowIsGridRun(grid, start, end);
    forall i, j | 0 <= i < j < |w|
      ensures Hour(w[i]).Some? && Hour(w[j]).Some? && Hour(w[i]).value < Hour(w[j]).value
    {
      assert Position(grid, w[i]) < Position(grid, w[j]);
    }
  }

  /**
   * `clockwise(a, b)` on two labels of an hour grid, where both parses
   * succeed: whether `b` comes after `a` on the grid. The grid is only
   * there to state this.
   */
  method Clockwise(ghost grid: seq<string>, a: string, b: string) returns (r: bool)
    requires HourGrid(grid) && a in grid && b in grid
    ensures r <==> Position(grid, a) < Position(grid, b)
  {
    ClockwiseOnGrid(grid, Position(grid, a), Position(grid, b));
    r := Later(a, b);
  }

  /**
   * `getTimes`: rejects a pair that fails the check, otherwise starts from
   * `[start]`, appends every grid label whose hour is after the start's,
   * and stops at the end label.
   */
  method GetTimes(grid: seq<string>, start: string, end: string) returns (r: Result<seq<string>>)
    requires HourGrid(grid)
    ensures r == Window(grid, start, end)
  {
    var startValid := ValidTime(grid, start);
    var endValid := ValidTime(grid, end);
    if !(startValid && endValid) {
      return Err("Invalid time (s)");
    }
    var ordered := start == end;
    if !ordered {
      ordered := Clockwise(grid, start, end);
    }
    if !ordered {
      return Err("Invalid time (s)");
    }
    ghost var s, e := Position(grid, start), Position(grid, end);
    var times := [start];
    var i := 0;
    while i < |grid|
      invariant i <= e
      invariant |times| == if i > s then i - s else 1
      invariant forall k :: 0 <= k < |times| ==> times[k] == grid[s + k]
    {
      var t := grid[i];
      var after := Clockwise(grid, start, t);
      if after {
        times := times + [t];
      }
      if t == end {
        break;
      }
      i := i + 1;
    }
    assert times == grid[s..e + 1];
    WindowOfOrderedPair(grid, start, end);
    return Ok(times);
  }
}
