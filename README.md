# Free-time engine of the room checker, in Dafny

This project models the engine of `findfreetimes` (the Go package in
`vendor/github.com/thailekha/findfreetimes/fft.go`). Given a weekday, a
start slot, an end slot and a list of rooms, the engine downloads each
room's timetable page. It lists each room's free one-hour slots in the
requested window and logs every request in a package-wide history string.

The concurrency is removed. The model keeps the engine's decisions and proves what they guarantee:

- **Text** (`text.dfy`) covers the Go library behaviour the engine relies on:
  - `strings.Split` on one separator, with its round trip through a join;
  - `strconv.ParseInt(s, 10, 0)` with the range of `int` on a 64-bit platform;
  - `strconv.Itoa`, which `ParseInt` reads back;
  - Go's `len` on a string, which counts UTF-8 bytes and not characters.
- **StringOrder** (`order.dfy`) covers `sort.Strings`. It is an insertion sort under byte-lexicographic order. UTF-8 preserves code-point order, so this equals char-by-char order on `seq<char>`. A sorted permutation is unique, so any correct sort gives the same result as this one.
- **TimeWindow** (`timewindow.dfy`) covers `contains`, `validTime`, `clockwise` and `getTimes`:
  - They work on the slot grid `supportedTimes`, "9:15" to "16:15". The operations take the grid as a parameter that satisfies `HourGrid`: slot `i` has hour `9 + i`. `GetTimes` is called with `SupportedTimes`, and `SupportedTimesHourGrid` proves that the constant satisfies `HourGrid`.
  - `Clockwise` carries the grid as a ghost parameter only so that its contract can speak of grid positions. What it computes is `Later`, the hour comparison of the source.
- **Weekdays** (`weekdays.dfy`) covers `getRows`, the five fixed nine-row lists and `getSelector`.
- **Retrieval** (`curl.dfy`) covers:
  - the tolerable curl exit codes;
  - the classification of a failed download run from its error text;
  - `query` over an explicit sequence of run outcomes.
- **SlotFilter** (`slots.dfy`) covers the filtering body of `process` and the worker as a whole. The page is abstracted as a map from a table row number to what that row's selector finds: pairs of (slot label, module text). Distinct rows have distinct selectors, so keying by row number loses nothing.
- **Aggregator** (`finder.dfy`) covers:
  - `Find` as a method of class `Finder`, which owns the `history` field;
  - the collection of the worker messages, supplied in arrival order;
  - `GetAllRooms` and `GetHistory`.

Points where the model takes a decision:

- **Sort order.** `sort.Strings` sorts the slot labels lexically, so "10:15" comes before "9:15". The model follows the code. A chronological order is neither assumed nor proved.
- **Free-slot test.** The module text must be two *bytes* long (`len(mo) == 2`). `ByteLenTwo` spells out which strings pass: two ASCII characters, or one character from U+0080 to U+07FF.
- **Empty room list.** With valid inputs and no rooms, `Find` waits for a message that never comes and never returns. The model returns `Blocked` for that case.
- **Arrival order.** The message for each requested room arrives exactly once, in some order. `Find` requires that the rooms of the arrival sequence are, as a multiset, the requested rooms.
- **`log.Fatal`.** Where the source calls `log.Fatal`, the model returns an error outcome:
  - in `query`, a fatal download error gives `CurlFailed`;
  - in `getHtml`, a page file that cannot be opened gives `Unreadable`;
  - in `clean`, called by `Find` after the last message, a failing `./clean.sh` gives `Aborted`. The script's error is an input of `Find`.
- **Parse failures.** `clockwise` would exit the process if a label's hour did not parse. It is only ever applied to grid labels, whose hours do parse. So `Later` requires both hours to parse, and `Clockwise` requires both labels to be on the grid.

## Model

| member | source | states |
|---|---|---|
| Text.Split | vendor/github.com/thailekha/findfreetimes/fft.go:216 | `strings.Split` always yields at least one piece |
| Text.JoinSplit | vendor/github.com/thailekha/findfreetimes/fft.go:216 | joining the pieces of a split with the separator gives back the string, and no piece contains the separator |
| Text.SplitJoin | vendor/github.com/thailekha/findfreetimes/fft.go:216 | splitting a join of separator-free pieces gives back the pieces |
| Text.SplitNoSeparator | vendor/github.com/thailekha/findfreetimes/fft.go:83 | a string without the separator splits into itself alone |
| Text.SplitFirstPiece | vendor/github.com/thailekha/findfreetimes/fft.go:83 | the first piece of a split is the text before the first separator |
| Text.ParseInt | vendor/github.com/thailekha/findfreetimes/fft.go:83 | a parsed value lies in the 64-bit range, and only an optional sign followed by at least one decimal digit parses; conversely every such string in range parses to its signed value |
| Text.NatToDecimal | vendor/github.com/thailekha/findfreetimes/fft.go:125 | the decimal form is non-empty, all digits, denotes the number and has no leading zero |
| Text.Itoa | vendor/github.com/thailekha/findfreetimes/fft.go:125 | `strconv.Itoa`: a minus sign for negatives, then the shortest decimal digits (`NatToDecimal`); `ParseItoa` and `ItoaInjective` give its meaning |
| Text.ParseItoa | vendor/github.com/thailekha/findfreetimes/fft.go:125 | `ParseInt` reads back what `Itoa` writes, on the 64-bit range |
| Text.ItoaInjective | vendor/github.com/thailekha/findfreetimes/fft.go:125 | distinct integers have distinct decimal forms |
| Text.ByteLen | vendor/github.com/thailekha/findfreetimes/fft.go:200 | a string has at least one and at most four UTF-8 bytes per character |
| Text.ByteLenTwo | vendor/github.com/thailekha/findfreetimes/fft.go:200 | a module text is two bytes long exactly when it is two ASCII characters or one character in U+0080..U+07FF |
| StringOrder.LexLeReflexive | vendor/github.com/thailekha/findfreetimes/fft.go:170 | the string order of `sort.Strings` is reflexive |
| StringOrder.LexLeTotal | vendor/github.com/thailekha/findfreetimes/fft.go:170 | any two strings are comparable |
| StringOrder.LexLeAntisymmetric | vendor/github.com/thailekha/findfreetimes/fft.go:170 | strings each ordered before the other are equal |
| StringOrder.LexLeTransitive | vendor/github.com/thailekha/findfreetimes/fft.go:170 | the order is transitive |
| StringOrder.Insert | vendor/github.com/thailekha/findfreetimes/fft.go:170 | inserting into a sorted list keeps it sorted and adds exactly that element |
| StringOrder.SortStrings | vendor/github.com/thailekha/findfreetimes/fft.go:170 | the result is sorted, of the same length, and a permutation of the input |
| StringOrder.HeadIsLeast | vendor/github.com/thailekha/findfreetimes/fft.go:170 | the first element of a sorted list is at most every element |
| StringOrder.SortedTail | vendor/github.com/thailekha/findfreetimes/fft.go:170 | the tail of a sorted list is sorted |
| StringOrder.SameHeadSameTail | vendor/github.com/thailekha/findfreetimes/fft.go:170 | permutations with the same head have tails that are permutations |
| StringOrder.SortedUnique | vendor/github.com/thailekha/findfreetimes/fft.go:170 | two sorted permutations of each other are equal, so any correct sort agrees with this one |
| StringOrder.SortSorted | vendor/github.com/thailekha/findfreetimes/fft.go:170 | sorting a sorted list changes nothing |
| StringOrder.TenFifteenBeforeNineFifteen | vendor/github.com/thailekha/findfreetimes/fft.go:170 | sorting ["9:15", "10:15"] yields ["10:15", "9:15"]: the order is lexical, not chronological |
| TimeWindow.Contains | vendor/github.com/thailekha/findfreetimes/fft.go:91-98 | the scan answers true exactly when the label is in the list |
| TimeWindow.ValidTime | vendor/github.com/thailekha/findfreetimes/fft.go:100-102 | a label is valid exactly when it is on the grid |
| TimeWindow.Hour | vendor/github.com/thailekha/findfreetimes/fft.go:83-86 | the hour `clockwise` reads from a label: the text before the first ':' parsed as a decimal int, or none when that fails; `HourOfLabel`, `LabelHour` and `PositionHour` give its values |
| TimeWindow.Later | vendor/github.com/thailekha/findfreetimes/fft.go:88 | the answer of `clockwise`: whether the second label's hour is greater than the first's; `ClockwiseOnGrid` proves it is grid-position order |
| TimeWindow.HourOfLabel | vendor/github.com/thailekha/findfreetimes/fft.go:83 | the hour of "h:15" is what `h` parses to |
| TimeWindow.LabelHour | vendor/github.com/thailekha/findfreetimes/fft.go:83 | the label built from hour h has hour h |
| TimeWindow.GridLabel | vendor/github.com/thailekha/findfreetimes/fft.go:26 | slot i of the grid is the label of hour 9 + i |
| TimeWindow.SupportedTimesHourGrid | vendor/github.com/thailekha/findfreetimes/fft.go:26 | the eight grid labels have hours 9 to 16 in order |
| TimeWindow.Position | vendor/github.com/thailekha/findfreetimes/fft.go:26 | a grid label sits at one and only one position |
| TimeWindow.PositionHour | vendor/github.com/thailekha/findfreetimes/fft.go:82-89 | a label's hour is 9 plus its grid position |
| TimeWindow.ClockwiseOnGrid | vendor/github.com/thailekha/findfreetimes/fft.go:82-89 | on the grid both hours parse, and one label is later than another exactly when it comes later on the grid |
| TimeWindow.Clockwise | vendor/github.com/thailekha/findfreetimes/fft.go:82-89 | for grid labels, the hour comparison answers whether the second label's position is strictly after the first's |
| TimeWindow.Window | vendor/github.com/thailekha/findfreetimes/fft.go:104-107 | the window is rejected with "Invalid time (s)" exactly when start or end is off the grid or the end comes before the start |
| TimeWindow.WindowOfOrderedPair | vendor/github.com/thailekha/findfreetimes/fft.go:109-121 | an accepted window is the contiguous grid slice from start to end, inclusive |
| TimeWindow.WindowEnds | vendor/github.com/thailekha/findfreetimes/fft.go:109-121 | an accepted window starts with the start label and ends with the end label, and is [start] when they are equal |
| TimeWindow.WindowIsGridRun | vendor/github.com/thailekha/findfreetimes/fft.go:109-121 | an accepted window holds consecutive grid slots, and a label is in it exactly when it lies on the grid between start and end |
| TimeWindow.WindowHoursIncrease | vendor/github.com/thailekha/findfreetimes/fft.go:109-121 | the hours of an accepted window strictly increase, so no label repeats |
| TimeWindow.GetTimes | vendor/github.com/thailekha/findfreetimes/fft.go:104-122 | the validation and the append loop with its break compute exactly the window value, error included |
| Weekdays.GetRows | vendor/github.com/thailekha/findfreetimes/fft.go:49-64 | exactly the five lowercase weekday names are accepted, and any other string gives "Invalid weekday" |
| Weekdays.RowRange | vendor/github.com/thailekha/findfreetimes/fft.go:27-31 | the run of n consecutive rows from a first row |
| Weekdays.MonRowsConsecutive | vendor/github.com/thailekha/findfreetimes/fft.go:27 | Monday's rows are 2 to 10 |
| Weekdays.TueRowsConsecutive | vendor/github.com/thailekha/findfreetimes/fft.go:28 | Tuesday's rows are 11 to 19 |
| Weekdays.WedRowsConsecutive | vendor/github.com/thailekha/findfreetimes/fft.go:29 | Wednesday's rows are 20 to 28 |
| Weekdays.ThuRowsConsecutive | vendor/github.com/thailekha/findfreetimes/fft.go:30 | Thursday's rows are 29 to 37 |
| Weekdays.FriRowsConsecutive | vendor/github.com/thailekha/findfreetimes/fft.go:31 | Friday's rows are 38 to 46 |
| Weekdays.DayRows | vendor/github.com/thailekha/findfreetimes/fft.go:49-64 | the k-th weekday maps to the nine rows starting at 2 + 9k |
| Weekdays.DayIndex | vendor/github.com/thailekha/findfreetimes/fft.go:49-64 | an accepted weekday has a place in the week |
| Weekdays.RowsOfWeekday | vendor/github.com/thailekha/findfreetimes/fft.go:49-64 | an accepted weekday yields nine consecutive rows fixed by its place in the week |
| Weekdays.RowsDisjoint | vendor/github.com/thailekha/findfreetimes/fft.go:27-31 | two different weekdays share no row |
| Weekdays.GetSelector | vendor/github.com/thailekha/findfreetimes/fft.go:124-126 | the CSS selector of a table row: the fixed prefix, the row number by `Itoa`, and ")"; `SelectorNamesRow` and `SelectorInjective` give its meaning |
| Weekdays.SelectorNamesRow | vendor/github.com/thailekha/findfreetimes/fft.go:124-126 | a row's selector is the fixed prefix, the row number in decimal and ")", and the number reads back from it |
| Weekdays.SelectorInjective | vendor/github.com/thailekha/findfreetimes/fft.go:124-126 | different rows have different selectors |
| Retrieval.IsTolerableCurlErrorCode | vendor/github.com/thailekha/findfreetimes/fft.go:66-74 | exactly the codes "6", "35", "55" and "56" are tolerable |
| Retrieval.IsTolerableFailure | vendor/github.com/thailekha/findfreetimes/fft.go:216-217 | the retry test on a failure's text: split on spaces into exactly "exit", "status" and a tolerable code; `TolerableFailureExactly` gives its closed form |
| Retrieval.TolerableFailureExactly | vendor/github.com/thailekha/findfreetimes/fft.go:215-224 | a failed run is retried exactly when its error text is "exit status C" for a tolerable C; every other failure is fatal |
| Retrieval.JoinThree | vendor/github.com/thailekha/findfreetimes/fft.go:216 | three pieces joined by a separator |
| Retrieval.FirstDecisive | vendor/github.com/thailekha/findfreetimes/fft.go:211-228 | the first run that is not a retried failure, all runs before it being retried |
| Retrieval.Query | vendor/github.com/thailekha/findfreetimes/fft.go:210-231 | when every earlier run was a tolerable failure, the first success yields room + ".html"; the first other failure is fatal with its error; with no decisive run the retrying goes on |
| SlotFilter.IsFree | vendor/github.com/thailekha/findfreetimes/fft.go:200 | the condition on one matched pair: its label was requested and its module text is two bytes long |
| SlotFilter.FreeInRow | vendor/github.com/thailekha/findfreetimes/fft.go:198-203 | the labels of the free pairs of one row, in document order; `FreeInRowMembership`, `FreeInRowBound` and `FreeInRowKeepsAll` give its meaning |
| SlotFilter.FreeSlots | vendor/github.com/thailekha/findfreetimes/fft.go:196-205 | the labels the filter collects over the rows of the day after the first; `FreeSlotsMembership` and `FreeSlotsIgnoresFirstRow` give its meaning |
| SlotFilter.AppendFreeInRow | vendor/github.com/thailekha/findfreetimes/fft.go:198-203 | the callback appends, in document order, the labels of the matched pairs that are free |
| SlotFilter.FreeTimes | vendor/github.com/thailekha/findfreetimes/fft.go:194-205 | the loop over the day's rows computes exactly the free labels of every row but the first, row by row |
| SlotFilter.FreeInRowMembership | vendor/github.com/thailekha/findfreetimes/fft.go:198-203 | a label comes out of a row exactly when some pair of the row carrying it is requested and has a two-byte module text |
| SlotFilter.FreeInRowBound | vendor/github.com/thailekha/findfreetimes/fft.go:198-203 | a row yields at most one label per matched pair |
| SlotFilter.FreeInRowKeepsAll | vendor/github.com/thailekha/findfreetimes/fft.go:198-203 | when every pair is free, the row yields all their labels in document order with nothing removed |
| SlotFilter.FreeSlotsUpToMembership | vendor/github.com/thailekha/findfreetimes/fft.go:196-204 | a label is among the first n rows' output exactly when one of rows 1..n-1 yields it |
| SlotFilter.FreeSlotsMembership | vendor/github.com/thailekha/findfreetimes/fft.go:196-204 | a label is in the output exactly when a free pair in a row after the first carries it; every output label was requested |
| SlotFilter.FreeSlotsIgnoresFirstRow | vendor/github.com/thailekha/findfreetimes/fft.go:196-197 | pages that agree on the day's rows after the first give the same output, whatever the first row holds |
| SlotFilter.Process | vendor/github.com/thailekha/findfreetimes/fft.go:184-208 | the worker sends the room with the free labels of its downloaded page, or stops on a fatal download error or an unreadable page |
| Aggregator.GetAllRooms | vendor/github.com/thailekha/findfreetimes/fft.go:128-130 | the room directory has eighteen rooms, none listed twice |
| Aggregator.HistoryEntry | vendor/github.com/thailekha/findfreetimes/fft.go:137-143 | the history line of one request: " ", the weekday, " [", start, "->", end, "] (", each room followed by ", ", then "); " and a newline; `Log` appends it |
| Aggregator.RoomListAppend | vendor/github.com/thailekha/findfreetimes/fft.go:139-141 | logging the rooms of a longer list extends the log of its prefix |
| Aggregator.ArrivalRooms | vendor/github.com/thailekha/findfreetimes/fft.go:165 | the senders of the messages, in arrival order |
| Aggregator.Collect | vendor/github.com/thailekha/findfreetimes/fft.go:165-179 | the kept entries are no more than the messages, and each has at least one label |
| Aggregator.Kept | vendor/github.com/thailekha/findfreetimes/fft.go:169-172 | what `Find` keeps of a message: its room with its labels sorted by `sort.Strings` |
| Aggregator.CollectSound | vendor/github.com/thailekha/findfreetimes/fft.go:169-173 | every kept entry is the sorted form of a message with free slots |
| Aggregator.CollectComplete | vendor/github.com/thailekha/findfreetimes/fft.go:169-173 | every message with free slots is kept, sorted |
| Aggregator.CollectMembership | vendor/github.com/thailekha/findfreetimes/fft.go:169-173 | an entry is kept exactly when it is the sorted form of a message with free slots |
| Aggregator.CollectAppend | vendor/github.com/thailekha/findfreetimes/fft.go:165-179 | messages are kept in arrival order: collecting two batches in turn is collecting their concatenation |
| Aggregator.CollectKeepsAll | vendor/github.com/thailekha/findfreetimes/fft.go:165-179 | when every message has free slots, each is kept in arrival order |
| Aggregator.CollectEntries | vendor/github.com/thailekha/findfreetimes/fft.go:165-179 | every kept entry names a requested room and holds a permutation of that room's labels |
| Aggregator.FindOutcome | vendor/github.com/thailekha/findfreetimes/fft.go:147-181 | a rejection carries one of the two validation errors; a success, which needs a clean-up without error, holds at most one entry per message; an abort carries the clean-up script's error |
| Aggregator.FindValidation | vendor/github.com/thailekha/findfreetimes/fft.go:147-155 | the weekday is checked before the times, and `Find` blocks exactly when the request is valid and names no room |
| Aggregator.FoundEntries | vendor/github.com/thailekha/findfreetimes/fft.go:158-181 | a valid request whose clean-up succeeds returns the collected entries: at most as many as requested rooms, each naming a requested room with a non-empty, sorted label list inside the window when the workers reported only window labels |
| Aggregator.Gather | vendor/github.com/thailekha/findfreetimes/fft.go:164-179 | the collection loop, ended by the count of messages, computes exactly the kept entries |
| Aggregator.Finder.constructor | vendor/github.com/thailekha/findfreetimes/fft.go:35 | the history starts empty |
| Aggregator.Finder.GetHistory | vendor/github.com/thailekha/findfreetimes/fft.go:132-134 | returns the history as it stands |
| Aggregator.Finder.Log | vendor/github.com/thailekha/findfreetimes/fft.go:137-143 | the history gains the request line (weekday, window, each room followed by ", ", then "); " and a newline) and nothing else changes |
| Aggregator.Finder.Find | vendor/github.com/thailekha/findfreetimes/fft.go:136-182 | every call, rejected or not, appends its request line to the history; the result is the validation error, `Blocked` for an empty room list, `Aborted` when the clean-up script fails, or the kept entries in arrival order |

## Left out

- Concurrency:
  - the goroutine per room, the merge channel and its closing;
  - the `cmds` counter with its busy-wait and unsynchronised updates; `maxCmds`.
  - The arrival order of the messages is an input of `Find`.
- External processes: `exec.Command` of `./curlroom.sh` and `./clean.sh`.
  - The download runs' outcomes are an input sequence of `Query`.
  - What `./clean.sh` does to the downloaded files is not modelled. Only its outcome is: an input of `Find`, whose error ends the call with `Aborted`.
- `getHtml` and `os.Open`: the files left by the downloads are an input map from file name to page. `htmlFilesPath` is not modelled.
- The HTML library: goquery's parsing and CSS selector evaluation are replaced by the abstract page. `GetSelector` is modelled only as the string it builds. The parse error checked at fft.go:192 is not modelled: the page is taken as already parsed.
- Cell texts are modelled as valid Unicode text (`seq<char>`). goquery returns Go byte strings that may hold invalid UTF-8, such as the Latin-1 bytes 0xA0 0xA0. Such a two-byte module text is free in Go but cannot be written in this model.
- Console output and timing: the retry message, `PrintRTS` and the sleeps.
- Process exit: `log.Fatal` becomes an error outcome, not termination.
- Shared state: the history is a field of one `Finder` object, not a process-wide global shared by concurrent calls.
- Aggregator.Finder.Find: it does not produce the worker messages itself. It takes them as an input, tied to the request only by the multiset of their rooms. `SlotFilter.Process` states what each message holds.
- Retrieval.Query: it covers a finite prefix of download runs. When no run in it is decisive, the outcome is `StillRetrying` rather than an endless loop, because the real retry loop may never end.
- The commented-out `NORMAL_ROOMS` list (fft.go:24) is not part of this model.
- `server.go` and `index.go` are not part of this model:
  - `server.go` is HTTP routing, authentication and JSON rendering over foreign libraries;
  - `index.go` is an earlier prototype that does not compile.
