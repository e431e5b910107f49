/**
 * The free-slot filter, the body of `process`: on a room's timetable page
 * it visits the rows of the requested weekday after the first, and lists
 * the slot label of every cell pair whose label was requested and whose
 * module text is two bytes long, the page's mark of a free slot.
 *
 * The page is abstract: a map from a table row number to the (slot label,
 * module text) pairs that row's selector (`GetSelector`) finds in it, in
 * document order; a row that is not in the map finds nothing. Distinct rows
 * have distinct selectors (`Weekdays.SelectorInjective`), so keying the page
 * by row number loses nothing.
 */
module SlotFilter {
  import opened Wrappers
  import opened Text
  import opened TimeWindow
  import opened Retrieval

  /** The texts of one matched row: the slot-label cell and the module cell. */
  datatype Cell = Cell(time: string, course: string)

  /** A page: what each row's selector matches. */
  type Document = map<int, seq<Cell>>

  /** A room with its free slots, the message a worker sends. */
  datatype RoomTimes = RoomTimes(room: string, times: seq<string>)

  /** What the selector of table row `row` matches on the page. */
  function RowCells(doc: Document, row: int): seq<Cell>
  {
    if row in doc then doc[row] else []
  }

  /** The filter condition on one cell pair. */
  predicate IsFree(c: Cell, times: seq<string>)
  {
    c.time in times && ByteLen(c.course) == 2
  }

  /** The labels of the free cells of one row, in order. */
  function FreeInRow(cells: seq<Cell>, times: seq<string>): seq<string>
  {
    if |cells| == 0 then []
    else
      var rest := FreeInRow(cells[..|cells| - 1], times);
      var c := cells[|cells| - 1];
      if IsFree(c, times) then rest + [c.time] else rest
  }

  /** The labels of the free cells of the rows `day[1..n]`, row by row. */
  function FreeSlotsUpTo(doc: Document, day: seq<int>, times: seq<string>, n: nat): seq<string>
    requires n <= |day|
  {
    if n <= 1 then []
    else FreeSlotsUpTo(doc, day, times, n - 1) + FreeInRow(RowCells(doc, day[n - 1]), times)
  }

  /** What `process` collects on a page for a weekday's rows. */
  function FreeSlots(doc: Document, day: seq<int>, times: seq<string>): seq<string>
  {
    FreeSlotsUpTo(doc, day, times, |day|)
  }

  /**
   * The callback `process` runs on each cell pair a row selector matches:
   * append the label when it is requested and the module text is two
   * bytes long.
   */
  method AppendFreeInRow(cells: seq<Cell>, times: seq<string>, freeTimes: seq<string>) returns (r: seq<string>)
    ensures r == freeTimes + FreeInRow(cells, times)
  {
    r := freeTimes;
    var i := 0;
    while i < |cells|
      invariant i <= |cells|
      invariant r == freeTimes + FreeInRow(cells[..i], times)
    {
      var ti, mo := cells[i].time, cells[i].course;
      var requested := Contains(ti, times);
      assert cells[..i + 1][..i] == cells[..i];
      if requested && ByteLen(mo) == 2 {
        r := r + [ti];
      }
      i := i + 1;
    }
    assert cells[..i] == cells;
  }

  /**
   * The loop of `process`: for each row of the day but the first, every
   * matched cell pair whose label is requested and whose module text is
   * two bytes long adds its label, in document order.
   */
  method FreeTimes(doc: Document, day: seq<int>, times: seq<string>) returns (freeTimes: seq<string>)
    ensures freeTimes == FreeSlots(doc, day, times)
  {
    freeTimes := [];
    var index := 0;
    while index < |day|
      invariant index <= |day|
      invariant freeTimes == FreeSlotsUpTo(doc, day, times, index)
    {
      if index > 0 {
        freeTimes := AppendFreeInRow(RowCells(doc, day[index]), times, freeTimes);
      }
      index := index + 1;
    }
  }

  /** A label is free in a row exactly when some free cell of the row carries it. */
  lemma {:induction false} FreeInRowMembership(cells: seq<Cell>, times: seq<string>, t: string)
    ensures t in FreeInRow(cells, times) <==>
      exists i :: 0 <= i < |cells| && cells[i].time == t && IsFree(cells[i], times)
  {
    if |cells| > 0 {
      var init := cells[..|cells| - 1];
      FreeInRowMembership(init, times, t);
      assert forall i :: 0 <= i < |init| ==> init[i] == cells[i];
    }
  }

  /** A row yields at most one label per cell pair. */
  lemma {:induction false} FreeInRowBound(cells: seq<Cell>, times: seq<string>)
    ensures |FreeInRow(cells, times)| <= |cells|
  {
    if |cells| > 0 {
      FreeInRowBound(cells[..|cells| - 1], times);
    }
  }

  /**
   * Nothing is merged or reordered: when every cell pair of a row is free,
   * the row yields all their labels in document order, repeats included.
   */
  lemma {:induction false} FreeInRowKeepsAll(cells: seq<Cell>, times: seq<string>)
    requires forall i :: 0 <= i < |cells| ==> IsFree(cells[i], times)
    ensures |FreeInRow(cells, times)| == |cells|
    ensures forall i :: 0 <= i < |cells| ==> FreeInRow(cells, times)[i] == cells[i].time
  {
    if |cells| > 0 {
      var init := cells[..|cells| - 1];
      FreeInRowKeepsAll(init, times);
      assert forall i :: 0 <= i < |init| ==> init[i] == cells[i];
    }
  }

  /**
   * A label is in the output exactly when some row of the day after the
   * first has a free cell pair carrying it.
   */
  lemma {:induction false} FreeSlotsUpToMembership(doc: Document, day: seq<int>, times: seq<string>, n: nat, t: string)
    requires n <= |day|
    ensures t in FreeSlotsUpTo(doc, day, times, n) <==>
      exists j :: 1 <= j < n && t in FreeInRow(RowCells(doc, day[j]), times)
  {
    if n > 1 {
      FreeSlotsUpToMembership(doc, day, times, n - 1, t);
      var row := FreeInRow(RowCells(doc, day[n - 1]), times);
      assert FreeSlotsUpTo(doc, day, times, n) == FreeSlotsUpTo(doc, day, times, n - 1) + row;
      if t in row {
        assert 1 <= n - 1 < n;
      }
      forall j | 1 <= j < n && t in FreeInRow(RowCells(doc, day[j]), times)
        ensures t in FreeSlotsUpTo(doc, day, times, n)
      {
        if j == n - 1 {
          assert RowCells(doc, day[j]) == RowCells(doc, day[n - 1]);
        }
      }
    }
  }

  /**
   * The filter's output holds exactly the labels of free cell pairs in the
   * day's rows after the first; in particular every one is requested.
   */
  lemma FreeSlotsMembership(doc: Document, day: seq<int>, times: seq<string>, t: string)
    ensures t in FreeSlots(doc, day, times) <==>
      exists j, i :: 1 <= j < |day| && 0 <= i < |RowCells(doc, day[j])| &&
        RowCells(doc, day[j])[i].time == t && IsFree(RowCells(doc, day[j])[i], times)
    ensures t in FreeSlots(doc, day, times) ==> t in times
  {
    FreeSlotsUpToMembership(doc, day, times, |day|, t);
    forall j | 1 <= j < |day| {
      FreeInRowMembership(RowCells(doc, day[j]), times, t);
    }
  }

  /**
   * Only the rows after the first matter: two pages that match the same
   * cells on those rows give the same output, whatever the first row holds.
   */
  lemma {:induction false} FreeSlotsIgnoresFirstRow(doc1: Document, doc2: Document, day: seq<int>, times: seq<string>, n: nat)
    requires n <= |day|
    requires forall j :: 1 <= j < n ==> RowCells(doc1, day[j]) == RowCells(doc2, day[j])
    ensures FreeSlotsUpTo(doc1, day, times, n) == FreeSlotsUpTo(doc2, day, times, n)
  {
    if n > 1 {
      FreeSlotsIgnoresFirstRow(doc1, doc2, day, times, n - 1);
    }
  }

  /** The outcome of a worker: the message it sends, or why it sends none. */
  datatype WorkerResult =
    | Sent(message: RoomTimes)
    | CurlFailed(err: string)
    | Unreadable(path: string)
    | Retrying

  /**
   * `process` without its wait for a free download slot: fetch the room's
   * page (`attempts` are the outcomes of the download runs, `pages` the
   * files they leave, by name), then filter it. A fatal download error or a
   * page that cannot be read ends the program instead of sending.
   */
  method Process(day: seq<int>, times: seq<string>, room: string,
                 attempts: seq<Attempt>, pages: map<string, Document>) returns (r: WorkerResult)
    ensures var k := FirstDecisive(attempts);
      if k == |attempts| then r == Retrying
      else if attempts[k].Failed? then r == CurlFailed(attempts[k].err)
      else if room + ".html" !in pages then r == Unreadable(room + ".html")
      else r == Sent(RoomTimes(room, FreeSlots(pages[room + ".html"], day, times)))
  {
    var q := Query(room, attempts);
    match q
    case StillRetrying =>
      return Retrying;
    case Fatal(err) =>
      return CurlFailed(err);
    case Fetched(path) =>
      if path !in pages {
        return Unreadable(path);
      }
      var freeTimes := FreeTimes(pages[path], day, times);
      return Sent(RoomTimes(room, freeTimes));
  }
}
