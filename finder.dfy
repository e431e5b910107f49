/**
 * The aggregator: `Find` logs every request in the package history,
 * validates the weekday and then the time window, and gathers the workers'
 * messages, one per requested room, keeping the rooms with free slots.
 * The goroutines and their channel are replaced by the sequence of
 * messages in the order they arrive.
 */
module Aggregator {
  import opened Wrappers
  import opened StringOrder
  import opened TimeWindow
  import opened Weekdays
  import opened SlotFilter

  /** The rooms a client may ask about. */
  const AllRooms: seq<string> := ["IT101", "IT102", "IT103", "IT118", "IT119", "IT120",
                                  "IT201", "IT202", "IT203", "IT220", "IT221", "IT222",
                                  "ITG01", "ITG02", "ITG03", "ITG17", "ITG18", "ITG19"]

  /** The eighteen rooms, none listed twice. */
  function GetAllRooms(): (r: seq<string>)
    ensures |r| == 18
    ensures forall i, j :: 0 <= i < j < |r| ==> r[i] != r[j]
  {
    AllRooms
  }

  /**
   * What `Find` returns; `Blocked` stands for a call that never returns and
   * `Aborted` for the process exit when the clean-up script fails.
   */
  datatype FindResult =
    | Found(rooms: seq<RoomTimes>)
    | Rejected(error: string)
    | Blocked
    | Aborted(error: string)

  /** The requested rooms as the history records them, each followed by ", ". */
  function RoomList(rooms: seq<string>): string
  {
    if |rooms| == 0 then "" else rooms[0] + ", " + RoomList(rooms[1..])
  }

  /** The room list of a longer request extends the room list of its prefix. */
  lemma {:induction false} RoomListAppend(a: seq<string>, b: seq<string>)
    ensures RoomList(a + b) == RoomList(a) + RoomList(b)
  {
    if |a| == 0 {
      assert a + b == b;
    } else {
      assert (a + b)[1..] == a[1..] + b;
      RoomListAppend(a[1..], b);
    }
  }

  /** The opening of a history line: the weekday and the requested window. */
  function RequestHeader(weekday: string, start: string, end: string): string
  {
    " " + weekday + " [" + start + "->" + end + "] ("
  }

  /** The line one `Find` call adds to the history. */
  function HistoryEntry(weekday: string, start: string, end: string, rooms: seq<string>): string
  {
    RequestHeader(weekday, start, end) + RoomList(rooms) + "); \n"
  }

  /** The room each message comes from, in arrival order. */
  function ArrivalRooms(arrivals: seq<RoomTimes>): (r: seq<string>)
    ensures |r| == |arrivals|
    ensures forall i :: 0 <= i < |r| ==> r[i] == arrivals[i].room
  {
    if |arrivals| == 0 then [] else ArrivalRooms(arrivals[..|arrivals| - 1]) + [arrivals[|arrivals| - 1].room]
  }

  /** The message `Find` keeps for an arrival with free slots: its labels sorted. */
  function Kept(m: RoomTimes): RoomTimes
  {
    RoomTimes(m.room, SortStrings(m.times))
  }

  /**
   * The result list of `Find`: the messages with at least one free slot,
   * in arrival order, each with its labels sorted by `sort.Strings`.
   */
  function Collect(arrivals: seq<RoomTimes>): (r: seq<RoomTimes>)
    ensures |r| <= |arrivals|
    ensures forall i :: 0 <= i < |r| ==> |r[i].times| > 0
  {
    if |arrivals| == 0 then []
    else
      var m := arrivals[|arrivals| - 1];
      var rest := Collect(arrivals[..|arrivals| - 1]);
      if |m.times| > 0 then
        rest + [Kept(m)]
      else rest
  }

  /** Every kept entry comes from a message with free slots. */
  lemma {:induction false} CollectSound(arrivals: seq<RoomTimes>, e: RoomTimes)
    requires e in Collect(arrivals)
    ensures exists i :: 0 <= i < |arrivals| && |arrivals[i].times| > 0 && e == Kept(arrivals[i])
  {
    var n := |arrivals|;
    var init := arrivals[..n - 1];
    if e in Collect(init) {
      CollectSound(init, e);
      var i :| 0 <= i < |init| && |init[i].times| > 0 && e == Kept(init[i]);
      assert arrivals[i] == init[i];
    } else {
      assert |arrivals[n - 1].times| > 0 && e == Kept(arrivals[n - 1]);
    }
  }

  /** Every message with free slots is kept. */
  lemma {:induction false} CollectComplete(arrivals: seq<RoomTimes>, i: nat)
    requires i < |arrivals| && |arrivals[i].times| > 0
    ensures Kept(arrivals[i]) in Collect(arrivals)
  {
    var n := |arrivals|;
    var init := arrivals[..n - 1];
    var last := if |arrivals[n - 1].times| > 0 then [Kept(arrivals[n - 1])] else [];
    assert Collect(arrivals) == Collect(init) + last;
    if i < n - 1 {
      assert arrivals[i] == init[i];
      CollectComplete(init, i);
    } else {
      assert last == [Kept(arrivals[i])];
    }
  }

  /**
   * An entry is in the result exactly when it is the kept form of a
   * message with free slots.
   */
  lemma CollectMembership(arrivals: seq<RoomTimes>, e: RoomTimes)
    ensures e in Collect(arrivals) <==>
      exists i :: 0 <= i < |arrivals| && |arrivals[i].times| > 0 && e == Kept(arrivals[i])
  {
    if e in Collect(arrivals) {
      CollectSound(arrivals, e);
    }
    forall i | 0 <= i < |arrivals| && |arrivals[i].times| > 0 && e == Kept(arrivals[i])
      ensures e in Collect(arrivals)
    {
      CollectComplete(arrivals, i);
    }
  }

  /** Collecting two batches of messages one after the other. */
  lemma {:induction false} CollectAppend(a: seq<RoomTimes>, b: seq<RoomTimes>)
    ensures Collect(a + b) == Collect(a) + Collect(b)
  {
    if |b| == 0 {
      assert a + b == a;
    } else {
      assert (a + b)[..|a + b| - 1] == a + b[..|b| - 1];
      CollectAppend(a, b[..|b| - 1]);
    }
  }

  /** When every message has a free slot, each one is kept, in arrival order. */
  lemma {:induction false} CollectKeepsAll(arrivals: seq<RoomTimes>)
    requires forall i :: 0 <= i < |arrivals| ==> |arrivals[i].times| > 0
    ensures |Collect(arrivals)| == |arrivals|
    ensures forall i :: 0 <= i < |arrivals| ==> Collect(arrivals)[i] == Kept(arrivals[i])
  {
    if |arrivals| > 0 {
      var n := |arrivals|;
      var init := arrivals[..n - 1];
      CollectKeepsAll(init);
      assert Collect(arrivals) == Collect(init) + [Kept(arrivals[n - 1])];
      forall i | 0 <= i < n
        ensures Collect(arrivals)[i] == Kept(arrivals[i])
      {
        if i < n - 1 {
          assert init[i] == arrivals[i];
        }
      }
    }
  }

  /**
   * Every entry of the result names a requested room, and lists only labels
   * its message listed, each as often.
   */
  lemma CollectEntries(arrivals: seq<RoomTimes>, rooms: seq<string>, e: RoomTimes)
    requires multiset(ArrivalRooms(arrivals)) == multiset(rooms)
    requires e in Collect(arrivals)
    ensures e.room in rooms
    ensures exists i :: 0 <= i < |arrivals| && arrivals[i].room == e.room &&
      multiset(e.times) == multiset(arrivals[i].times)
  {
    CollectMembership(arrivals, e);
    var i :| 0 <= i < |arrivals| && |arrivals[i].times| > 0 && e == Kept(arrivals[i]);
    var names := ArrivalRooms(arrivals);
    assert names[i] == e.room;
    assert e.room in multiset(names);
  }

  /** The slots a request asks about, on the engine's own grid. */
  ghost function RequestedWindow(start: string, end: string): Result<seq<string>>
  {
    SupportedTimesHourGrid();
    Window(SupportedTimes, start, end)
  }

  /**
   * What `Find` does, as a value: the checks in source order, then the
   * collection, then the clean-up, whose error `cleanErr` (if any) ends the
   * process.
   */
  ghost function FindOutcome(weekday: string, start: string, end: string,
                             rooms: seq<string>, arrivals: seq<RoomTimes>,
                             cleanErr: Option<string>): (r: FindResult)
    ensures r.Rejected? ==> r.error == "Invalid weekday" || r.error == "Invalid time (s)"
    ensures r.Found? ==> |rooms| > 0 && |r.rooms| <= |arrivals| && cleanErr.None?
    ensures r.Aborted? ==> |rooms| > 0 && cleanErr == Some(r.error)
  {
    var day := GetRows(weekday);
    if day.Err? then Rejected(day.error)
    else
      var times := RequestedWindow(start, end);
      if times.Err? then Rejected(times.error)
      else if |rooms| == 0 then Blocked
      else if cleanErr.Some? then Aborted(cleanErr.value)
      else Found(Collect(arrivals))
  }

  /**
   * A bad weekday is reported whatever the times; a good weekday with a bad
   * window reports the window; with at least one room `Find` returns.
   */
  lemma FindValidation(weekday: string, start: string, end: string,
                       rooms: seq<string>, arrivals: seq<RoomTimes>, cleanErr: Option<string>)
    ensures weekday !in WeekdayNames ==>
      FindOutcome(weekday, start, end, rooms, arrivals, cleanErr) == Rejected("Invalid weekday")
    ensures weekday in WeekdayNames && (start !in SupportedTimes || end !in SupportedTimes) ==>
      FindOutcome(weekday, start, end, rooms, arrivals, cleanErr) == Rejected("Invalid time (s)")
    ensures FindOutcome(weekday, start, end, rooms, arrivals, cleanErr).Blocked? <==>
      weekday in WeekdayNames && |rooms| == 0 && RequestedWindow(start, end).Ok?
  {
    SupportedTimesHourGrid();
  }

  /**
   * A valid request whose clean-up succeeds returns the collected
   * entries: each requested room is answered at most once, with its free
   * labels sorted, and only labels from the requested window when every
   * worker reported only those.
   */
  lemma FoundEntries(weekday: string, start: string, end: string,
                     rooms: seq<string>, arrivals: seq<RoomTimes>, e: RoomTimes)
    requires multiset(ArrivalRooms(arrivals)) == multiset(rooms)
    requires GetRows(weekday).Ok? && RequestedWindow(start, end).Ok?
    requires e in Collect(arrivals)
    ensures FindOutcome(weekday, start, end, rooms, arrivals, None) == Found(Collect(arrivals))
    ensures |Collect(arrivals)| <= |rooms|
    ensures e.room in rooms && |e.times| > 0 && Sorted(e.times)
    ensures (forall i, t :: 0 <= i < |arrivals| && t in arrivals[i].times ==> t in RequestedWindow(start, end).value) ==>
      forall t :: t in e.times ==> t in RequestedWindow(start, end).value
  {
    SupportedTimesHourGrid();
    assert |arrivals| == |ArrivalRooms(arrivals)| == |multiset(rooms)|;
    CollectEntries(arrivals, rooms, e);
    CollectMembership(arrivals, e);
    var i :| 0 <= i < |arrivals| && |arrivals[i].times| > 0 && e == Kept(arrivals[i]);
    forall t | t in e.times
      ensures t in arrivals[i].times
    {
      assert t in multiset(e.times);
    }
  }

  /** The package state of the engine: the log of every request. */
  class Finder {
    var history: string

    constructor()
      ensures history == ""
    {
      history := "";
    }

    /** The log of all requests so far. */
    method GetHistory() returns (h: string)
      ensures h == history
    {
      h := history;
    }

    /** Append the line of one request to the history. */
    method Log(weekday: string, start: string, end: string, rooms: seq<string>)
      modifies this
      ensures history == old(history) + HistoryEntry(weekday, start, end, rooms)
    {
      history := history + RequestHeader(weekday, start, end);
      ghost var header := history;
      var k := 0;
      while k < |rooms|
        invariant k <= |rooms|
        invariant history == header + RoomList(rooms[..k])
      {
        RoomListAppend(rooms[..k], [rooms[k]]);
        assert rooms[..k + 1] == rooms[..k] + [rooms[k]];
        history := history + rooms[k] + ", ";
        k := k + 1;
      }
      assert rooms[..k] == rooms;
      history := history + "); \n";
    }

    /**
     * One request: log it, validate it, then take the `|rooms|` messages in
     * arrival order and run the clean-up script, which reports `cleanErr`.
     * Once the request is valid, each requested room sends exactly one
     * message.
     */
    method Find(weekday: string, start: string, end: string,
                rooms: seq<string>, arrivals: seq<RoomTimes>, cleanErr: Option<string>) returns (r: FindResult)
      requires GetRows(weekday).Ok? && RequestedWindow(start, end).Ok? ==>
        multiset(ArrivalRooms(arrivals)) == multiset(rooms)
      modifies this
      ensures history == old(history) + HistoryEntry(weekday, start, end, rooms)
      ensures r == FindOutcome(weekday, start, end, rooms, arrivals, cleanErr)
    {
      Log(weekday, start, end, rooms);
      var day := GetRows(weekday);
      if day.Err? {
        return Rejected(day.error);
      }
      SupportedTimesHourGrid();
      var times := GetTimes(SupportedTimes, start, end);
      if times.Err? {
        return Rejected(times.error);
      }
      if |rooms| == 0 {
        return Blocked;
      }
      assert |arrivals| == |ArrivalRooms(arrivals)| == |multiset(rooms)| == |rooms|;
      var result := Gather(|rooms|, arrivals);
      if cleanErr.Some? {
        return Aborted(cleanErr.value);
      }
      return Found(result);
    }
  }

  /**
   * The collection loop of `Find`: take messages until `count` have arrived,
   * keeping those with free slots, their labels sorted.
   */
  method Gather(count: nat, arrivals: seq<RoomTimes>) returns (result: seq<RoomTimes>)
    requires 0 < count == |arrivals|
    ensures result == Collect(arrivals)
  {
    result := [];
    var dataCount := 0;
    while true
      invariant dataCount < count
      invariant result == Collect(arrivals[..dataCount])
      decreases count - dataCount
    {
      var roomTimes := arrivals[dataCount];
      assert arrivals[..dataCount + 1][..dataCount] == arrivals[..dataCount];
      dataCount := dataCount + 1;
      if |roomTimes.times| > 0 {
        var sorted := SortStrings(roomTimes.times);
        result := result + [RoomTimes(roomTimes.room, sorted)];
      }
      if dataCount == count {
        break;
      }
    }
    assert arrivals[..dataCount] == arrivals;
  }
}
