# Bass Canyon planner: a verified model of its core logic

The planner is a small web app that a group of friends uses to organise a music festival
at The Gorge, 12–16 August 2026. It keeps who is going, campsites and vehicles, packing
lists, a schedule with calendar export, a weather widget and a festival bingo game. This
project models the parts of it that compute rather than render or forward requests. Each
module below corresponds to one file of the program.

- **`BingoShuffle`, `BingoServer`** (`server/src/routes/bingo.js`). This is the bingo engine.
  - `BingoShuffle` has the seeded Fisher–Yates shuffle over 32-bit words (`bv32`). It is
    written the way the code does it: `Math.imul`, `>>>`, and `^=` with `+`.
  - `BingoServer` has the twelve winning lines and `hasBingo`, plus the board every member
    gets: pool item 20 at cell 12, and the other 24 items placed through the shuffle.
  - It also has the tile toggle, the one-time completion timestamp, the leaderboard and the
    label edit.
  - The routes act on two tables, held by the class `BingoStore` whose methods update them
    in place. Each route is also given as a function, and the lemmas about the routes are
    stated on those functions.
- **`BingoClient`** (`client/src/components/Bingo.jsx`). It computes the set of winning tiles
  and decides when a completion is posted. The set is built in a loop, as the component
  builds it.
- **`CalendarExport`** (`client/src/utils/calendarExport.js`). It covers:
  - the `parseTime` parser;
  - event start and end as minutes of August 2026 in UTC, at a fixed −07:00 offset;
  - the `YYYYMMDDTHHMMSSZ` strings, which are the UTC DATE-TIME form of section 3.3.5 of
    RFC 5545;
  - TEXT escaping, as in section 3.3.11 of RFC 5545;
  - the VEVENT and VCALENDAR builders, which produce CRLF-joined content lines;
  - the `dates` field of the Google Calendar link.
- **`GoingList`** (`client/src/components/GoingList.jsx`). It covers `isFullyAssigned` and
  `getMissing`. `getMissing` is a method that pushes names in the code's order, proved
  against a selection over the fixed requirement order.
- **`Schedule`** (`client/src/components/Schedule.jsx`). It covers:
  - `ordinal` and `dayLabel`, with JavaScript's truncating `%`;
  - the add form;
  - the insert comparator as a sort key;
  - the `byDay` columns, built by a method that pushes each event into its day's column and
    then sorts the festival days' columns by time;
  - the mobile day arrows.
- **`PackingTab`, `Packing`** (`client/src/components/PackingTab.jsx` and `Packing.jsx`).
  - They cover `typeLabel`, the `byType` grouping method, the add bodies, the occupants
    rules, list deletion, and the local updates after a toggle or a removal.
  - The card in `Packing.jsx` repeats `ITEM_TYPES`, `TYPE_ORDER`, `typeLabel` (line 107),
    `byType` (lines 108–112), and the toggle and remove updates (lines 69 and 75) of the tab
    word for word. `Packing` therefore imports those definitions from `PackingTab`, and
    their rows below cover both files.
- **`Campsites`** (`client/src/components/Campsites.jsx`). It covers:
  - the `byCampsite` bucketing method and which buckets get rendered;
  - the slot and "spots left" arithmetic;
  - the collapsed-section toggle;
  - the item label.
- **`VehiclesSites`** (`client/src/components/VehiclesSites.jsx`). It covers the add forms,
  capacity normalisation, the sorted inserts, the removals, and the mapping of the pass
  vehicle and area pickers to `null`.
- **`WeatherWidget`** (`client/src/components/WeatherWidget.jsx`). It covers
  `weatherCodeToLabel` over WMO weather interpretation codes (WMO code table 4677). A
  lemma shows it agrees with an independent table of disjoint ranges.

Four modules are shared:
- `Wrappers` (`Option`, `Result`);
- `JsText`, which models the JavaScript string and number behaviour the code relies on:
  `trim`, `parseInt(s, 10)`, `String(n)`, `padStart(2, '0')`, `join`, single-character
  `replace`, and the truncating `%`;
- `Lists` (filter, stable sort by key, grouping, replace and remove by id, lexicographic
  order);
- `Records`, the table rows both sides exchange.

The clock, random parts, the unknown-day "now" and the database are parameters or values,
not effects:
- SQL `datetime('now')` is a `now: nat` argument;
- `Math.random()` in a UID is a `randomPart` string;
- `new Date()` for DTSTAMP or for an unknown day is an abstract `clock` function applied to
  an offset in minutes;
- the members and items tables are sequences of rows.

Some behaviours the model keeps as written:
- **GoingList, campsite id 0.** `getMissing` tests `!m.campsite_id`, which is true for id 0,
  but `isFullyAssigned` lets id 0 through. `GoingList.CampsiteZeroDisagrees` exhibits a
  member that is fully assigned yet has `["Vehicle"]` missing.
  `GoingList.FullyAssignedIffNothingMissing` proves the two agree for every other
  campsite id. SQLite ids start at 1, so this is recorded as a modelled corner rather
  than a finding.
- **Schedule, unknown days.** The schedule's insert comparator returns 0 for two different
  unknown days, so it is not a consistent order; `Schedule.CompareInconsistentForUnknownDays`
  exhibits this. Ordering is therefore proved for known days only.
- **Schedule, no trim of `day`.** The add form trims `time`, `title` and `description` but
  sends `day` as selected, without trimming.
- **CalendarExport, minutes 60–99.** A parsed minute of 60 or more makes
  `eventStartDate`'s ISO string an invalid date-time. The model carries that as
  `InvalidDate`, whose fields print as `NaN`.
- **Inherited keys of `DAY_DATE` and `byDay`.** Both are plain object literals, so a day
  named like an `Object.prototype` member (`constructor`, `toString`, `__proto__`, ...)
  finds an inherited value. In the calendar export the ISO string then holds the
  function's text and the date is invalid: `CalendarExport.EventStart` gives `InvalidDate`
  for such a day, and its fields print as `NaN`. In the schedule, `byDay[ev.day].push` is
  not a function and the render throws a TypeError: `Schedule.ByDay` and
  `Schedule.PushByDay` return `None` exactly when some event names such a day.
- **BingoServer, POST `/complete`.** The route does not check `hasBingo` itself: it
  records a completion for any member without one (`BingoServer.CompleteIgnoresBoard`).

## Model

| member | source | states |
|---|---|---|
| BingoShuffle.Identity | server/src/routes/bingo.js:9 | the starting array has length n and holds k at index k |
| BingoShuffle.InitialState | server/src/routes/bingo.js:10 | the mixer state is never 0, and it is the seed's low 32 bits whenever those are not 0 |
| BingoShuffle.Low32Periodic | server/src/routes/bingo.js:10 | `seed \| 0` works modulo 2^32: seeds that differ by a multiple of 2^32 get the same bits |
| BingoShuffle.OutputDeterminesState | server/src/routes/bingo.js:14 | the output `(s ^ (s >>> 14)) >>> 0` determines the state: xoring it with its shifts by 14 and 28 gives the state back |
| BingoShuffle.SwapIndex | server/src/routes/bingo.js:17 | the partner index `next() % (i + 1)` lies in [0, i] because the output is unsigned |
| BingoShuffle.Swap | server/src/routes/bingo.js:18 | the destructuring swap keeps the array length |
| BingoShuffle.ShuffleFrom | server/src/routes/bingo.js:16-19 | the remaining loop keeps the array length |
| BingoShuffle.Shuffle | server/src/routes/bingo.js:8-21 | `seededShuffle(length, seed)` returns an array of `length` entries |
| BingoShuffle.SwapMultiset | server/src/routes/bingo.js:18 | a swap leaves the multiset of entries unchanged |
| BingoShuffle.SwapPermutation | server/src/routes/bingo.js:18 | a swap of two in-range indices maps a permutation of 0..n-1 to a permutation |
| BingoShuffle.ShuffleFromPermutation | server/src/routes/bingo.js:16-19 | the descending swap loop keeps a permutation a permutation, whatever the mixer state |
| BingoShuffle.ShuffleIsPermutation | server/src/routes/bingo.js:8-21 | for every length and seed the result lists each of 0..length-1 exactly once |
| BingoShuffle.SeedZeroActsAsOne | server/src/routes/bingo.js:10 | seed 0 is replaced by 1, so seeds 0 and 1 give the same order |
| BingoShuffle.SeedModulo32 | server/src/routes/bingo.js:10 | only the seed's low 32 bits matter (`seed \| 0`) |
| BingoShuffle.SeededShuffle | server/src/routes/bingo.js:8-21 | the in-place loop over an array returns exactly `Shuffle(length, seed)`, and that is a permutation |
| BingoServer.LineCompleteIff | server/src/routes/bingo.js:64 | `line.every(...)` holds iff every tile of the line is checked |
| BingoServer.AnyLineCompleteIff | server/src/routes/bingo.js:64 | `lines.some(...)` holds iff some line of the list is complete |
| BingoServer.HasBingoIff | server/src/routes/bingo.js:63-65 | `hasBingo` holds iff one of the twelve lines has all five tiles checked |
| BingoServer.HasBingo | server/src/routes/bingo.js:63-65 | a fully checked board is a bingo, and a bingo has at least one checked tile |
| BingoServer.LinesWellFormed | server/src/routes/bingo.js:57-61 | the table has 12 lines of 5 distinct cells of the 5x5 grid |
| BingoServer.LineCells | server/src/routes/bingo.js:57-61 | line l, position k, is row l, column l-5, or a diagonal cell, as a formula |
| BingoServer.LineShapes | server/src/routes/bingo.js:57-61 | the lines are the 5 rows, the 5 columns, the diagonal and the anti-diagonal |
| BingoServer.HasBingoIsGridBingo | server/src/routes/bingo.js:56-65 | `hasBingo` holds iff a row, a column or a diagonal is fully checked |
| BingoServer.StoredFalseIsUnchecked | server/src/routes/bingo.js:64 | a key stored as `false` counts the same as a missing key |
| BingoServer.HasBingoMonotone | server/src/routes/bingo.js:63-65 | checking more tiles never loses a bingo |
| BingoServer.Others | server/src/routes/bingo.js:76 | the pool without item 20 has 24 entries, in pool order |
| BingoServer.PositionOf | server/src/routes/bingo.js:78 | the i-th cell other than the centre is a cell of the grid and not 12 |
| BingoServer.SlotOf | server/src/routes/bingo.js:78 | every non-centre cell is the PositionOf exactly one slot |
| BingoServer.Board | server/src/routes/bingo.js:78-85 | the board has 25 tiles |
| BingoServer.OffCenterIsPicked | server/src/routes/bingo.js:83-85 | the non-centre tiles, in cell order, carry `others[itemOrder[i]]` |
| BingoServer.PickIdentity | server/src/routes/bingo.js:84 | picking through the identity order gives the list back |
| BingoServer.OffCenterLabels | server/src/routes/bingo.js:83-85 | the 24 non-centre tiles carry each of the 24 other labels exactly once |
| BingoServer.BoardLayout | server/src/routes/bingo.js:78-85 | tile k has index k, cell 12 holds item 20's label, and the board's labels are the pool's labels with multiplicity |
| BingoServer.BuildTiles | server/src/routes/bingo.js:80-85 | the two fill loops over a 25-tile array produce exactly `Board(labels, order)` |
| BingoServer.ItemLabels | server/src/routes/bingo.js:71 | the labels of the pool, one per item, in order |
| BingoServer.BoardNeedsExactly25 | server/src/routes/bingo.js:72-77 | the board fails iff the pool does not have 25 items: fewer gives "Need at least 25", more gives "must have exactly 25" |
| BingoServer.BoardFor | server/src/routes/bingo.js:67-85 | a board is built iff the pool has exactly 25 items; it has 25 tiles with item 20's label in the centre |
| BingoServer.StoredChecked | server/src/routes/bingo.js:86-92 | the map loaded is that of the first row with the id, or `{}` when no row has it |
| BingoServer.BoardForEveryMember | server/src/routes/bingo.js:72-85 | with 25 items every member id gets a 25-tile board with item 20 in the centre |
| BingoServer.CenterIsShared | server/src/routes/bingo.js:74-82 | all members share the same centre tile |
| BingoServer.Flip | server/src/routes/bingo.js:113-114 | `checked[key] = !checked[key]` flips that tile, adds its key and keeps every other key's value |
| BingoServer.AfterToggle | server/src/routes/bingo.js:117-122 | a recorded time is kept; afterwards a time is present iff one was or the map has a bingo, and a new one is `now` |
| BingoServer.ToggleMember | server/src/routes/bingo.js:113-122 | the tile flips and its key is added, the other fields stay, and a recorded time is kept |
| BingoServer.ToggleRoute | server/src/routes/bingo.js:99-127 | a NaN member id or an index outside 0..24 answers 400 and changes nothing; otherwise the answered tile is the flip of the stored one, and the table keeps its length |
| BingoServer.ToggleFlipsOnlyThatTile | server/src/routes/bingo.js:113-116 | a toggle flips exactly one tile of the member and keeps the other keys and the other fields |
| BingoServer.ToggleCompletion | server/src/routes/bingo.js:117-122 | a recorded time is kept; with none, `now` is written iff the new map has a bingo |
| BingoServer.CompleteWritesAtMostOnce | server/src/routes/bingo.js:134-139 | POST `/complete` answers `already_completed` without writing, or writes `now` once |
| BingoServer.CompleteMember | server/src/routes/bingo.js:134-139 | the stored time is the answered time; `already_completed` iff a time was recorded; no other field changes |
| BingoServer.CompleteRoute | server/src/routes/bingo.js:129-143 | a NaN id answers 400 and no row 404, and an error writes nothing; on success the member's row carries the answered time |
| BingoServer.CompleteIgnoresBoard | server/src/routes/bingo.js:129-139 | the route records a completion even for a member with no checked tile |
| BingoServer.CompletionIsPermanent | server/src/routes/bingo.js:117-139 | once set, the completion time survives every later sequence of toggles and POSTs |
| BingoServer.CompletionIsFirstWin | server/src/routes/bingo.js:117-139 | a recorded completion time is the time of the first request after which a time was recorded |
| BingoServer.FindMember | server/src/routes/bingo.js:106 | the row lookup returns the first row with the id, or none when no row has it |
| BingoServer.ToggleRouteEffect | server/src/routes/bingo.js:99-127 | a bad tile index is a 400 with no write; other members' rows never change; the reply is the flipped map |
| BingoServer.Eligible | server/src/routes/bingo.js:149 | the selected rows are going, completed members, each kept as often as it is listed |
| BingoServer.Ranked | server/src/routes/bingo.js:152 | one entry per row, in row order: entry i carries row i's id, name and time and rank i + 1 |
| BingoServer.LeaderboardOrder | server/src/routes/bingo.js:149-152 | rank is position + 1 and completion times do not decrease |
| BingoServer.Leaderboard | server/src/routes/bingo.js:145-157 | one entry per going member with a completion time, ranked 1, 2, ... by position |
| BingoServer.LeaderboardRows | server/src/routes/bingo.js:147-152 | the leaderboard rows are a permutation of the eligible members' rows |
| BingoServer.LeaderboardEntriesEligible | server/src/routes/bingo.js:149-152 | every leaderboard row comes from a going member with a completion time |
| BingoServer.FirstWithId | server/src/routes/bingo.js:47 | the row read back after an edit is a row with that id |
| BingoServer.UpdateLabelEffect | server/src/routes/bingo.js:32-52 | the guards answer in order (id, label type, no fields); an edit trims the label and changes only the rows with that id |
| BingoServer.Relabel | server/src/routes/bingo.js:46 | the update keeps every row's id and length and gives each row with the id the new label |
| BingoServer.RowWithId | server/src/routes/bingo.js:47-48 | the read-back is `{}` iff no row has the id, otherwise a row of the table with that id |
| BingoServer.UpdateLabelRoute | server/src/routes/bingo.js:32-52 | an error changes nothing; the edit goes through iff the id is numeric and the label a string; the answered row has the id and the trimmed label, and is `{}` iff no row has the id |
| BingoServer.BingoStore.GetBoard | server/src/routes/bingo.js:67-97 | GET `/board` errors as the route does, or answers the member's board and stored checked map |
| BingoServer.BingoStore.Toggle | server/src/routes/bingo.js:99-127 | the new members table and the reply are those of the toggle route; the pool is unchanged |
| BingoServer.BingoStore.Complete | server/src/routes/bingo.js:129-143 | the new members table and the reply are those of the completion route |
| BingoServer.BingoStore.UpdateLabel | server/src/routes/bingo.js:32-52 | the new pool and the reply are those of the label route; members are unchanged |
| BingoServer.BingoStore.GetLeaderboard | server/src/routes/bingo.js:145-157 | the answer is the ranked leaderboard of the current members |
| BingoClient.SameTableAsServer | client/src/components/Bingo.jsx:4-8 | the component's line table is the server's, entry for entry |
| BingoClient.WinningLineIndices | client/src/components/Bingo.jsx:10-16 | the loop over the lines returns exactly the union of the won lines |
| BingoClient.Every | client/src/components/Bingo.jsx:13 | the `every` test is true iff all tiles of the line are checked |
| BingoClient.AddAll | client/src/components/Bingo.jsx:13 | `line.forEach(set.add)` adds exactly the line's tiles |
| BingoClient.WinningUpToIff | client/src/components/Bingo.jsx:12-14 | after n lines, a tile is in the set iff it lies on a won line among the first n |
| BingoClient.WinningCellsIff | client/src/components/Bingo.jsx:10-16 | a tile is in the result iff it lies on a fully checked line |
| BingoClient.WinningCellsOnGrid | client/src/components/Bingo.jsx:4-16 | every winning tile is in 0..24 |
| BingoClient.WonIsLineDone | client/src/components/Bingo.jsx:13 | a won client line is a complete server line, and conversely |
| BingoClient.WinningEmptyIffNoBingo | client/src/components/Bingo.jsx:10-16 | the set is empty iff the server's `hasBingo` is false for the same map |
| BingoClient.WinningMonotone | client/src/components/Bingo.jsx:12-14 | checking more tiles never shrinks the winning set |
| BingoClient.CompletionRequest | client/src/components/Bingo.jsx:58-66 | a completion is posted iff a board is loaded, a member is selected and the map has a bingo; it carries that member |
| CalendarExport.DayDate | client/src/utils/calendarExport.js:6-12 | an own key of `DAY_DATE` is a festival day with a date in 12..16 |
| CalendarExport.ParseTime | client/src/utils/calendarExport.js:17-25 | the hour is below 24 and the minute below 100; missing, empty or malformed input gives noon |
| CalendarExport.ParseTimeOfClock | client/src/utils/calendarExport.js:17-25 | `H:MM` and `HH:MM` read back as the hour and minute written |
| CalendarExport.ParseTimeOfFields | client/src/utils/calendarExport.js:19-24 | a matching string gives its hour field's value, 0 from 24 on, and its minute field's value |
| CalendarExport.TimeFields | client/src/utils/calendarExport.js:19 | `hh:mm` with digit fields matches the pattern and splits back into its fields |
| CalendarExport.ParseTimeWrapsHours | client/src/utils/calendarExport.js:23 | hours 24..99 become 0 and the minutes pass through |
| CalendarExport.ParseTimeIgnoresSpace | client/src/utils/calendarExport.js:19 | surrounding space does not change the parse |
| CalendarExport.EventStart | client/src/utils/calendarExport.js:33-39 | a day that is no key of `DAY_DATE` is the current time; the date is invalid iff the day is an inherited key or a festival day with a minute of 60 or more; otherwise it is an August instant |
| CalendarExport.FieldsOf | client/src/utils/calendarExport.js:53-61 | the UTC date, hour and minute are in range and recompose to the instant |
| CalendarExport.UtcIsLocalPlusSeven | client/src/utils/calendarExport.js:33-39 | the UTC minute is the local one, the hour is local + 7 mod 24, and the date carries into the next day |
| CalendarExport.FieldsUnique | client/src/utils/calendarExport.js:54-60 | date, hour and minute are determined by the instant |
| CalendarExport.Plus30 | client/src/utils/calendarExport.js:49 | start + 30 minutes: an instant moves 30 minutes on, an Invalid Date stays invalid |
| CalendarExport.InheritedDayPrintsNaN | client/src/utils/calendarExport.js:34-38 | an event whose day is an inherited key of `DAY_DATE` has an Invalid Date as start and as end, and both print `NaNNaNNaNTNaNNaNNaNZ` |
| CalendarExport.EventEnd | client/src/utils/calendarExport.js:44-50 | a non-blank end time gives its own start; otherwise start + 30 minutes |
| CalendarExport.UtcStringForm | client/src/utils/calendarExport.js:53-61 | an instant prints as 16 characters `YYYYMMDDTHHMMSSZ` that parse back to the instant |
| CalendarExport.UtcString | client/src/utils/calendarExport.js:53-61 | an August instant prints as 16 characters `202608DDTHHMM00Z`; an Invalid Date prints 20 characters of `NaN` fields; the current time is the clock's string |
| CalendarExport.ParseUtc | client/src/utils/calendarExport.js:53-61 | only a 16-character `202608DDTHHMM00Z` string reads back to a minute |
| CalendarExport.InvalidDateString | client/src/utils/calendarExport.js:53-61 | an Invalid Date prints `NaNNaNNaNTNaNNaNNaNZ`, which is not a DATE-TIME |
| CalendarExport.CalendarDatesForm | client/src/utils/calendarExport.js:73 | `dates` is two DATE-TIMEs around a `/`, each reading back to its instant |
| CalendarExport.CalendarDates | client/src/utils/calendarExport.js:73 | a valid start fills the first 16 characters before the `/`; an invalid start prints `NaN` fields before it |
| CalendarExport.EscapeChainOfChar | client/src/utils/calendarExport.js:83-87 | on one character the replace chain is that character's escape |
| CalendarExport.EscapeChainAppend | client/src/utils/calendarExport.js:83-87 | the replace chain distributes over concatenation |
| CalendarExport.EscapeChainIsEach | client/src/utils/calendarExport.js:83-87 | the four global replaces equal escaping character by character |
| CalendarExport.EscapeIcsText | client/src/utils/calendarExport.js:81-88 | the output escapes each character independently, holds no newline, and is "" for "" |
| CalendarExport.EscapeChar | client/src/utils/calendarExport.js:84-87 | backslash, `;`, `,` and newline become two characters led by a backslash, any other character stays, and no newline is left |
| CalendarExport.EscapeEach | client/src/utils/calendarExport.js:81-88 | the escape is one to two times as long as the input and holds no newline |
| CalendarExport.EscapeChain | client/src/utils/calendarExport.js:83-87 | the four passes leave no newline and add only backslash, `;`, `,` and `n` |
| CalendarExport.Unescape | client/src/utils/calendarExport.js:81-88 | reading an escaped value back never makes it longer (`UnescapeEscape` makes it the inverse) |
| CalendarExport.UnescapeEscape | client/src/utils/calendarExport.js:81-88 | unescaping the output restores the input |
| CalendarExport.UnescapeEach | client/src/utils/calendarExport.js:83-87 | unescaping the per-character escape restores the input |
| CalendarExport.BackslashFirstMatters | client/src/utils/calendarExport.js:84 | putting the backslash pass last would break the round trip (";" shows it) |
| CalendarExport.VeventHead | client/src/utils/calendarExport.js:99-106 | six lines opening with `BEGIN:VEVENT` and closing with the SUMMARY line |
| CalendarExport.VeventTail | client/src/utils/calendarExport.js:107-110 | the DESCRIPTION line only when a description is present, then `END:VEVENT` |
| CalendarExport.VeventLines | client/src/utils/calendarExport.js:95-110 | 8 lines with a description, 7 without, framed by BEGIN and END |
| CalendarExport.HeadHasNoDescription | client/src/utils/calendarExport.js:99-106 | none of the six head lines is a DESCRIPTION line |
| CalendarExport.VeventDescription | client/src/utils/calendarExport.js:105-109 | a DESCRIPTION line is present iff the event has a description; the SUMMARY value holds no raw newline |
| CalendarExport.Vevent | client/src/utils/calendarExport.js:95-112 | the CRLF-joined VEVENT starts `BEGIN:VEVENT` CRLF and ends CRLF `END:VEVENT` |
| CalendarExport.TitleOf | client/src/utils/calendarExport.js:105 | `ev.title \|\| 'Event'` is never empty and keeps a non-empty title |
| CalendarExport.UidOf | client/src/utils/calendarExport.js:98 | a non-empty given UID is used as is; otherwise the generated one starts `event-` |
| CalendarExport.HeaderLines | client/src/utils/calendarExport.js:121-127 | five lines from `BEGIN:VCALENDAR` and `VERSION:2.0` to `CALSCALE:GREGORIAN`, the calendar-name line without a line break |
| CalendarExport.EventsToIcs | client/src/utils/calendarExport.js:119-130 | the file starts `BEGIN:VCALENDAR` CRLF and ends CRLF `END:VCALENDAR` |
| CalendarExport.Framing | client/src/utils/calendarExport.js:111 | two or more lines joined by CRLF open with the first line and CRLF and close with CRLF and the last line |
| CalendarExport.EventGroups | client/src/utils/calendarExport.js:120 | one VEVENT per event, in input order |
| CalendarExport.EventsToIcsLines | client/src/utils/calendarExport.js:119-130 | the file is one CRLF join of the header lines, every event's lines in order, and `END:VCALENDAR` |
| GoingList.NameInjective | client/src/components/GoingList.jsx:19-26 | the seven pushed names are pairwise different |
| GoingList.FindCampsite | client/src/components/GoingList.jsx:25 | `find` returns a campsite with that id, or nothing iff none has it |
| GoingList.PushedIsSelected | client/src/components/GoingList.jsx:18-26 | the pushes so far are the names of the lacking requirements among the first n, in order |
| GoingList.GetMissing | client/src/components/GoingList.jsx:17-28 | the sequential pushes return exactly the names of the lacking requirements in field order |
| GoingList.PushIf | client/src/components/GoingList.jsx:19 | `if (cond) missing.push(name)` appends the name iff the condition holds |
| GoingList.MissingWrittenOut | client/src/components/GoingList.jsx:17-28 | the requirement-order reference equals the seven tests as written |
| GoingList.PushesSpelled | client/src/components/GoingList.jsx:19-26 | each requirement's push fires on exactly the test the code writes for it |
| GoingList.MissingInPushOrder | client/src/components/GoingList.jsx:18-27 | the reference is the seven conditional pushes concatenated in order |
| GoingList.MissingIff | client/src/components/GoingList.jsx:19-26 | a name is listed iff the member lacks that requirement |
| GoingList.Missing | client/src/components/GoingList.jsx:17-28 | at most seven names, each the name of a requirement the member lacks |
| GoingList.Lacks | client/src/components/GoingList.jsx:19-26 | for a fully assigned member only the Vehicle test can fire, and only for campsite id 0; any other lacking requirement rules out the green dot |
| GoingList.MissingOrdered | client/src/components/GoingList.jsx:19-26 | at most 7 names, in field order, with no duplicates |
| GoingList.FullyAssignedIffNothingMissing | client/src/components/GoingList.jsx:3-28 | for every campsite id other than 0, the green dot shows iff nothing is missing |
| GoingList.IsFullyAssigned | client/src/components/GoingList.jsx:3-15 | a green dot needs a campsite row with the member's campsite id that has a pass vehicle |
| GoingList.CampsiteZeroDisagrees | client/src/components/GoingList.jsx:8-26 | with campsite id 0 a member can be fully assigned and still have "Vehicle" missing |
| GoingList.ContactMissingIff | client/src/components/GoingList.jsx:19 | Contact is missing iff the number is null, empty or only spaces |
| GoingList.HasContact | client/src/components/GoingList.jsx:7 | a contact is present iff the number is not null and has a character that is not white space |
| GoingList.WristbandMissingIff | client/src/components/GoingList.jsx:24 | only 'GA' or 'VIP' satisfies the wristband |
| GoingList.VehicleMissingIff | client/src/components/GoingList.jsx:25-26 | Vehicle is missing iff there is no campsite id (or it is 0), the campsite is unknown, or it has no pass vehicle |
| GoingList.MemberVehicleIgnored | client/src/components/GoingList.jsx:3-28 | the member's own `vehicle_id` changes neither result |
| GoingList.LacksIgnoresVehicle | client/src/components/GoingList.jsx:25-26 | no requirement reads the member's own `vehicle_id` |
| GoingList.Rows | client/src/components/GoingList.jsx:54-62 | one row per going member, green iff fully assigned |
| GoingList.GoingCard | client/src/components/GoingList.jsx:45-55 | no card iff nobody is going; otherwise one row per going member, each from a going member |
| GoingList.NoneGoing | client/src/components/GoingList.jsx:46 | an empty going list means no member is going |
| GoingList.RowsOfMembers | client/src/components/GoingList.jsx:45-55 | every row shows a going member and that member's status |
| Records.Going | client/src/components/GoingList.jsx:45 | the filter keeps exactly the going members and nothing else |
| Records.GoingCount | client/src/components/Campsites.jsx:46 | a going member stays in the filter as often as it is listed |
| Schedule.DaysDistinct | client/src/components/Schedule.jsx:3 | the five days are distinct |
| Schedule.OrdinalIsEnglish | client/src/components/Schedule.jsx:14-18 | with JS's truncating `%`, the suffix follows the English rule (11–13 take "th") for every n ≥ 0 |
| Schedule.OrdinalExamples | client/src/components/Schedule.jsx:14-18 | 1st, 2nd, 3rd, 4th, 11th–13th, 21st–23rd, 101st, 111th |
| Schedule.OrdinalSuffix | client/src/components/Schedule.jsx:15-17 | the suffix is one of `th`, `st`, `nd`, `rd` |
| Schedule.Ordinal | client/src/components/Schedule.jsx:14-18 | `n + suffix` is the spelling of n followed by a two-letter suffix |
| Schedule.FestivalDateSuffix | client/src/components/Schedule.jsx:14-18 | the festival dates 12..16 all take "th" |
| Schedule.DayLabelForm | client/src/components/Schedule.jsx:20-23 | a festival day reads `day (NNth)`, any other day unchanged |
| Schedule.DayLabel | client/src/components/Schedule.jsx:20-23 | the label starts with the day name, and differs from it exactly for a day of `DAY_DATE` |
| Schedule.DaysAreDated | client/src/components/Schedule.jsx:3-12 | the days of `DAYS` are exactly the days with a date |
| Schedule.AddRequest | client/src/components/Schedule.jsx:41-47 | a blank title sends nothing; time and title go trimmed, day as selected, a blank description as null |
| Schedule.AddRequestTrimmed | client/src/components/Schedule.jsx:47 | what is sent is already trimmed, and the title is not empty |
| Schedule.IndexOf | client/src/components/Schedule.jsx:50 | `DAYS.indexOf` is -1 iff the day is unknown, else its index |
| Schedule.KeyAgreesWithCompare | client/src/components/Schedule.jsx:50 | where the comparator is consistent, the (day index, time) key orders as it does |
| Schedule.Compare | client/src/components/Schedule.jsx:50 | on one day, 0 iff the times are equal; two different festival days never compare 0; two different unknown days always do |
| Schedule.KnownDaysAgree | client/src/components/Schedule.jsx:50 | for festival days the (day index, time) key orders exactly as the comparator does |
| Schedule.CompareInconsistentForUnknownDays | client/src/components/Schedule.jsx:50 | for unknown days the comparator is not an order (0, 0 and then < 0 around a cycle) |
| Schedule.InsertEvent | client/src/components/Schedule.jsx:50 | the new list is the old one plus the new event, as a multiset |
| Schedule.InsertEventOrdered | client/src/components/Schedule.jsx:50 | with known days, every pair of the new list is in comparator order |
| Schedule.RemoveEvent | client/src/components/Schedule.jsx:57 | the filter keeps only events without that id, each as often as it was listed |
| Schedule.RemoveEventKeepsOrder | client/src/components/Schedule.jsx:57 | removing by id keeps a comparator-ordered list of festival-day events ordered |
| Schedule.OverlayComplete | client/src/components/Schedule.jsx:66-68 | sorting the five festival columns of the buckets gives the `byDay` reference |
| Schedule.ByDay | client/src/components/Schedule.jsx:61-68 | the render throws (`None`) iff some event names an inherited key; otherwise the bucketing loop and the per-day sorts give exactly the reference columns |
| Schedule.PushByDayStart | client/src/components/Schedule.jsx:61 | the reduce starts from the five empty festival columns |
| Schedule.PushByDay | client/src/components/Schedule.jsx:61-65 | the `forEach` throws (`None`) iff some event names an inherited key; otherwise pushing into or creating each day's column yields the grouping of the events by day |
| Schedule.PushStep | client/src/components/Schedule.jsx:62-65 | one event is pushed onto its day's column, or starts a new one (the loop returns `None` first for an inherited key) |
| Schedule.SortFestivalColumns | client/src/components/Schedule.jsx:66-68 | the loop sorts the five festival columns and leaves the other columns as they are |
| Schedule.ByDayPartition | client/src/components/Schedule.jsx:61-65 | when `byDay` is built, columns exist for every festival day and every day named by an event; each event is in its day's column, as often as listed, and in no other |
| Schedule.ByDayColumnsSorted | client/src/components/Schedule.jsx:66-68 | when `byDay` is built, every festival-day column is sorted by time, null read as "" |
| Schedule.ArrowsStayInRange | client/src/components/Schedule.jsx:140-153 | each arrow moves by one within [0, 4] and stops at the ends |
| Schedule.WalkStaysInRange | client/src/components/Schedule.jsx:140-153 | any sequence of arrow presses keeps the index in [0, 4] |
| Schedule.PreviousDay | client/src/components/Schedule.jsx:140 | `Math.max(0, i - 1)` is at least 0 and at least i - 1, and equals one of them |
| Schedule.NextDay | client/src/components/Schedule.jsx:153 | `Math.min(DAYS.length - 1, i + 1)` is at most 4 and at most i + 1, and equals one of them |
| Schedule.DefaultIsFriday | client/src/components/Schedule.jsx:25 | the default mobile index 2 is Friday |
| PackingTab.ItemTypesDistinct | client/src/components/PackingTab.jsx:3-12 | the stored types of `ITEM_TYPES` are distinct |
| PackingTab.ItemTypesNonEmpty | client/src/components/PackingTab.jsx:3-12 | only the first type is empty and no label is empty |
| PackingTab.ItemTypesLabels | client/src/components/PackingTab.jsx:3-12 | the types are '', six with labels of their own, and 'other' labelled Other |
| PackingTab.TypeLabelFound | client/src/components/PackingTab.jsx:17 | a found, non-empty option gives its label |
| PackingTab.TypeLabelOfListed | client/src/components/PackingTab.jsx:16-18 | every listed non-empty type reads its own label |
| PackingTab.TypeLabelOther | client/src/components/PackingTab.jsx:16-18 | the label is "Other" iff the type is '', 'other' or unlisted; it is never '—' |
| PackingTab.TypeLabel | client/src/components/PackingTab.jsx:16-18 | the empty type reads "Other"; any label other than "Other" is the label of the listed option with that value |
| PackingTab.ByType | client/src/components/PackingTab.jsx:164-168 | the reduce over `TYPE_ORDER` builds exactly one filtered group per entry |
| PackingTab.ByTypePartition | client/src/components/PackingTab.jsx:164-168 | groups exist exactly for `TYPE_ORDER`; a listed-type item is in its group as often as listed and in no other; other types are in none |
| PackingTab.ByTypeKeepsOrder | client/src/components/PackingTab.jsx:166 | each group keeps the items' relative order |
| PackingTab.NewItemFields | client/src/components/PackingTab.jsx:95-101 | a blank label sends nothing; the label goes trimmed; the type only when picked; occupants only for a shelter that parses above 0 |
| PackingTab.NewItemOccupantsRoundTrip | client/src/components/PackingTab.jsx:98-101 | a shelter with a positive count written out sends that count |
| PackingTab.AddItemBody | client/src/components/PackingTab.jsx:93-101 | the body is the common fields and the selected list |
| PackingTab.OccupantsValue | client/src/components/PackingTab.jsx:153-157 | '' and a NaN parse become null; anything else is `parseInt`'s value |
| PackingTab.OccupantsValueRoundTrip | client/src/components/PackingTab.jsx:153-157 | a count written out is sent back unchanged |
| PackingTab.UpdateOccupants | client/src/components/PackingTab.jsx:150-157 | an edit is sent only when the first item with that id is a shelter, and then with the normalised value |
| PackingTab.DeleteCustomList | client/src/components/PackingTab.jsx:70-79 | only a confirmed numeric list is deleted; deleting the selected list selects 'general', any other keeps the selection |
| PackingTab.ToggleRequest | client/src/components/PackingTab.jsx:120 | the toggle sends the opposite of `done` |
| PackingTab.ToggleTwice | client/src/components/PackingTab.jsx:120 | toggling twice restores `done` |
| PackingTab.ApplyUpdated | client/src/components/PackingTab.jsx:124 | only the items with the id are replaced by the returned row |
| PackingTab.RemoveItem | client/src/components/PackingTab.jsx:133 | remove drops exactly the items with the id and keeps the others as often as listed |
| PackingTab.UpdateIdempotent | client/src/components/PackingTab.jsx:124-133 | applying an update twice is applying it once; removing after an update is removing |
| Packing.AddBody | client/src/components/Packing.jsx:37-50 | a blank label sends nothing; the common fields as in the tab; the campsite only when one is selected |
| Packing.CurrentLabel | client/src/components/Packing.jsx:102-105 | "General" with no selection, "Campsite" for an unknown id, else the name of a campsite with that id |
| Packing.CurrentLabelOfCampsite | client/src/components/Packing.jsx:103-105 | selecting a campsite whose id is not shared by an earlier one shows that campsite's name |
| Packing.UpdateOccupantsAnyType | client/src/components/Packing.jsx:90-95 | '' and NaN send null, anything else `parseInt`'s value, for any item type |
| Packing.OccupantsEditsAgreeOnShelters | client/src/components/Packing.jsx:90-95 | where the tab sends an edit the card sends the same; the card also sends one for a non-shelter, which the tab does not |
| Campsites.Toggled | client/src/components/Campsites.jsx:12-19 | the key's membership flips and no other key changes |
| Campsites.ToggleSection | client/src/components/Campsites.jsx:12-19 | copying the set and then deleting or adding the key gives exactly the toggled set |
| Campsites.ToggleTwice | client/src/components/Campsites.jsx:12-19 | toggling twice restores the set |
| Campsites.EmptyBucketsSnoc | client/src/components/Campsites.jsx:50 | each campsite adds one empty bucket |
| Campsites.EmptyBucketsFilled | client/src/components/Campsites.jsx:48-50 | null and every campsite have an empty bucket before any member is pushed |
| Campsites.ByCampsite | client/src/components/Campsites.jsx:46-55 | the three loops produce exactly the going members grouped by `campsite_id ?? null` |
| Campsites.ByCampsitePartition | client/src/components/Campsites.jsx:46-55 | buckets for null and every campsite; each going member in its own bucket as often as listed and in no other |
| Campsites.ByCampsiteKeys | client/src/components/Campsites.jsx:48-50 | a bucket exists for null and for every campsite, even when empty |
| Campsites.ByCampsiteAt | client/src/components/Campsites.jsx:51-55 | each bucket holds the going members with that key, in order |
| Campsites.ByCampsiteOwnBucket | client/src/components/Campsites.jsx:51-55 | a going member lands in its own bucket, as often as listed |
| Campsites.ExtraBucket | client/src/components/Campsites.jsx:53 | a bucket beyond null and the campsites exists only for a key some going member has |
| Campsites.Sections | client/src/components/Campsites.jsx:88-122 | "Without campsite" first, then one section per campsite, each with its bucket or [] |
| Campsites.RenderedIff | client/src/components/Campsites.jsx:88-122 | a going member is rendered iff its key is null or a listed campsite's id |
| Campsites.RenderedAt | client/src/components/Campsites.jsx:88-122 | a member with a known key appears in some rendered section |
| Campsites.NotRendered | client/src/components/Campsites.jsx:88-122 | a member whose campsite is not listed appears in no rendered section |
| Campsites.EmptySlots | client/src/components/Campsites.jsx:135 | no empty slots without a capacity; otherwise count + empty slots reaches the capacity exactly when not over it |
| Campsites.SpotsLeft | client/src/components/Campsites.jsx:134 | spots left + count is the capacity; none without a capacity |
| Campsites.CampsiteSlots | client/src/components/Campsites.jsx:133-135 | with capacity 6 a section shows max(6, count) slots; the unassigned section has 0 empty slots |
| Campsites.SpotsBadge | client/src/components/Campsites.jsx:157-160 | a badge shows iff capacity is set and spots left ≥ 0; 0 shows " · Full" |
| Campsites.SpotsBadgeShape | client/src/components/Campsites.jsx:158 | a positive count reads back from the badge, singular exactly for 1 |
| Campsites.SpotsBadgeExamples | client/src/components/Campsites.jsx:154-161 | 6 of 6 is Full, 5 of 6 is "1 spot left", 7 of 6 shows nothing, unassigned shows nothing |
| Campsites.ItemLabelShape | client/src/components/Campsites.jsx:202-204 | the label is extended by ` (list)` iff the list name is truthy, and the name reads back |
| Campsites.ItemLabel | client/src/components/Campsites.jsx:202-204 | the result starts with the item label and equals it iff the list name is null or empty |
| Campsites.SectionVehicleName | client/src/components/Campsites.jsx:136-137 | none for the unassigned section; a shown name is the pass vehicle's; when the first campsite with the id has a pass vehicle in the list, the first such vehicle's name is shown |
| VehiclesSites.NewName | client/src/components/VehiclesSites.jsx:25-26 | a blank name is rejected; otherwise the trimmed, non-empty name is sent |
| VehiclesSites.NewNameStable | client/src/components/VehiclesSites.jsx:25-26 | the sent name is already trimmed |
| VehiclesSites.Capacity | client/src/components/VehiclesSites.jsx:79 | always ≥ 1; the parsed value when it is ≥ 1, else 1 (NaN and 0 included) |
| VehiclesSites.CapacityRoundTrip | client/src/components/VehiclesSites.jsx:92 | a capacity written out reads back; normalising twice is normalising once |
| VehiclesSites.AddVehicleBody | client/src/components/VehiclesSites.jsx:75-83 | a blank name sends nothing; otherwise the trimmed name and the normalised capacity |
| VehiclesSites.AddCampsite | client/src/components/VehiclesSites.jsx:33 | after an add the list is sorted by name and is the old list plus the new row |
| VehiclesSites.AddVehicle | client/src/components/VehiclesSites.jsx:86 | after an add the list is sorted by name and is the old list plus the new row |
| VehiclesSites.RemoveCampsite | client/src/components/VehiclesSites.jsx:40 | drops exactly the campsites with the id and keeps the others as often as listed |
| VehiclesSites.RemoveVehicle | client/src/components/VehiclesSites.jsx:105 | drops exactly the vehicles with the id and keeps the others as often as listed |
| VehiclesSites.RemovalKeepsOrder | client/src/components/VehiclesSites.jsx:38-42 | removing from a name-sorted list keeps it sorted |
| VehiclesSites.NumberOfDecimal | client/src/components/VehiclesSites.jsx:52 | `Number(v)` on an option value: a digit string denotes its value, `-` and digits its negation, and every other string (the empty one included) nothing |
| VehiclesSites.VehicleIdValue | client/src/components/VehiclesSites.jsx:52 | '' and null clear the pass vehicle; otherwise `Number(v)` |
| VehiclesSites.VehicleIdRoundTrip | client/src/components/VehiclesSites.jsx:52 | picking a vehicle's option sends that vehicle's id |
| VehiclesSites.AreaValue | client/src/components/VehiclesSites.jsx:64 | '' and null clear the area; any other value is sent as is |
| VehiclesSites.AreaOptions | client/src/components/VehiclesSites.jsx:44-49 | the placeholder clears the area and each of the three areas is stored as picked |
| WeatherWidget.TableLabel | client/src/components/WeatherWidget.jsx:16-28 | the reference: a code in no range reads "Cloudy", any other label comes from a range holding the code |
| WeatherWidget.CodeTableDisjoint | client/src/components/WeatherWidget.jsx:19-26 | the labelled ranges are non-empty, increasing and pairwise disjoint |
| WeatherWidget.LabelMatchesTable | client/src/components/WeatherWidget.jsx:16-28 | the if-chain agrees with the range table on every integer code |
| WeatherWidget.WeatherCodeToLabel | client/src/components/WeatherWidget.jsx:16-28 | `—` exactly for a missing code; a code below 0 or above 99 reads "Cloudy" |
| WeatherWidget.OutsideTable | client/src/components/WeatherWidget.jsx:27 | a code in no range reads "Cloudy" |
| WeatherWidget.InsideRange | client/src/components/WeatherWidget.jsx:19-26 | a code in a range reads that range's label |
| WeatherWidget.LabelExamples | client/src/components/WeatherWidget.jsx:16-28 | null is '—', 0 Clear, 2 Partly cloudy, 48 Foggy, 61 Rain, 95 Thunderstorms; 4, 46, 50, 100 and -1 read Cloudy |
| JsText.Trim | client/src/components/VehiclesSites.jsx:25 | `trim` removes exactly a leading and a trailing run of white space |
| JsText.TrimIdempotent | client/src/components/VehiclesSites.jsx:25 | trimming twice is trimming once |
| JsText.BlankIsAllSpace | client/src/components/GoingList.jsx:7 | `s.trim() === ''` iff every character of s is white space |
| JsText.ParseIntOfIntToString | client/src/components/PackingTab.jsx:99 | `parseInt(String(n), 10)` is n for every integer |
| JsText.ParseInt | server/src/routes/bingo.js:104 | a number is read only when the first non-space character is a digit or a sign, and always when it is a digit, giving a value of at least 0 |
| JsText.JsRem | client/src/components/Schedule.jsx:16-17 | `%` truncates: the remainder takes the sign of the dividend and is smaller than the divisor |
| JsText.TwoDigits | client/src/utils/calendarExport.js:55-59 | `String(n).padStart(2, '0')` for n < 100 is two digits whose value is n |
| Lists.SortBySorted | client/src/components/VehiclesSites.jsx:33 | the stable sort by key yields a sorted permutation of its input |
| Lists.FilterCount | client/src/components/PackingTab.jsx:166 | filtering keeps every passing element as often as it is listed |
| JsText.TrimStart | client/src/components/VehiclesSites.jsx:25 | the leading run of white space is removed and the rest is a suffix starting with a non-space |
| JsText.IsSpace | client/src/components/VehiclesSites.jsx:25 | a white-space character is never a digit or a sign |
| JsText.Join | client/src/utils/calendarExport.js:111 | joining nothing gives "", one part gives that part, and several start with the first part and the separator |
| JsText.TrimEnd | client/src/components/VehiclesSites.jsx:25 | the trailing run of white space is removed and the rest is a prefix ending with a non-space |
| JsText.DecimalString | client/src/utils/calendarExport.js:55-59 | `String(n)` for n ≥ 0 is a digit string without a leading zero whose value is n |
| JsText.IntToString | client/src/components/PackingTab.jsx:99 | `String(n)` is the decimal spelling, with a leading `-` for a negative n |
| JsText.PadStart2 | client/src/utils/calendarExport.js:55-59 | `padStart(2, '0')` leaves two or more characters alone and otherwise prefixes zeros up to two |
| JsText.ReplaceChar | client/src/utils/calendarExport.js:84-87 | a global replace of one character leaves none of it when the replacement lacks it, and adds no other characters |
| CalendarExport.UnescapeChar | client/src/utils/calendarExport.js:83-87 | unescaping undoes one escaped character in front of any rest |
| Lists.SortBy | client/src/components/VehiclesSites.jsx:33 | the sort keeps every element with its multiplicity |
| Lists.InsertSorted | client/src/components/Schedule.jsx:50 | inserting into a sorted list keeps it sorted and adds only the new element |
| Lists.Filter | client/src/components/PackingTab.jsx:166 | the filter keeps only passing elements of the input |
| Lists.FilterKeeps | client/src/components/GoingList.jsx:45 | every passing element survives the filter |
| Lists.RemoveWhere | client/src/components/PackingTab.jsx:133 | `filter((x) => x.id !== id)` keeps only elements of the input without that id |
| Lists.RemoveWhereCount | client/src/components/VehiclesSites.jsx:40 | an element without that id keeps its multiplicity |
| Lists.RemoveWhereSorted | client/src/components/VehiclesSites.jsx:40 | removing from a sorted list keeps it sorted |
| Lists.ReplaceWhere | client/src/components/PackingTab.jsx:124 | `map((x) => x.id === id ? updated : x)` replaces exactly the entries with that id |
| Lists.ReplaceWhereIdempotent | client/src/components/PackingTab.jsx:124 | replacing by a row with the same id twice is replacing once |
| Lists.RemoveAfterReplace | client/src/components/PackingTab.jsx:124-133 | removing after a replace by the same id is removing |
| Lists.FindFirst | client/src/components/GoingList.jsx:25 | `find` gives the first element that passes, and nothing iff none passes |
| Schedule.IndexOfDay | client/src/components/Schedule.jsx:50 | `DAYS.indexOf(DAYS[j])` is j |

## Left out

- Rendering, React state and hooks, the `fetch` calls and `window.confirm` are not modelled. A request is modelled by the value it sends and a reply by the value it returns, and a confirmation is a boolean argument.
- `downloadBlob` and `downloadIcs` are left out: they only hand the generated text to the browser.
- The SQL and Express wiring is left out: `getDb`, prepared statements, the route mounting and HTTP status plumbing beyond the answer's kind. The two tables are sequences of rows.
- Concurrency is left out: requests are applied one after another.
- `server/src/routes/auth.js` and `server/src/routes/me.js` are not part of this model.
- The clock and the random source are parameters, not effects. SQL `datetime('now')` is `now`. `Math.random()` in a generated UID is `randomPart`. `new Date()` for DTSTAMP and for an unknown day is `clock`.
- The Google Calendar link is modelled by its `dates` field only; the `URLSearchParams` encoding of the other fields is left out.
- `JSON.parse` of `bingo_checked` is left out, including its failure on malformed text. The map is stored as decoded.
- The `String(i)` keys of the checked map are natural-number indices, so inherited keys such as `"__proto__"` cannot arise there. The inherited keys of `DAY_DATE` and `byDay` are modelled (see above).
- `ev.id ?? Date.now()` in a generated UID is modelled for a present id only. Schedule rows always carry an integer id, so `ScheduleEvent.id` is an `int`, and the `Date.now()` fallback is not modelled.
- Numbers are IEEE doubles in JavaScript and unbounded integers here. `parseInt`, `Number(v)`, row ids and `String(n)` are exact in the model; their rounding and exponent spelling above 2^53 are not modelled. No value in the modelled code comes near that range.
- Schedule.DayLabel: an inherited key of `DAY_DATE` would print the inherited function's text as its ordinal. This is not modelled, because the day picker (Schedule.jsx:77) calls `dayLabel` only with the five festival days.
- BingoShuffle.Next and BingoShuffle.Low32 carry no contract of their own: facts about their `bv32` results are too costly for the solver. Their lines are covered by `BingoShuffle.OutputDeterminesState`, `BingoShuffle.Low32Periodic`, `BingoShuffle.InitialState` and the shuffle rows.
- `localeCompare` is taken as code-point order: locale collation is not modelled.
- `Number(v)` is modelled only for decimal spellings, which are the only values the vehicle picker's options carry; hexadecimal, exponent and padded spellings are left out.
- GoingList's `EditMemberModal` and PackingTab's `addCustomList`, `cleanupOrphans`, `loadLists` and `loadItems` are left out: they only forward requests or copy server rows.
- `updateCampsiteVehicle`, `updateCampsiteArea` and `updateVehicleCapacity` are modelled by the value they send (`VehicleIdValue`, `AreaValue`, `Capacity`). The map over the local list that follows each reply is the same replace by id as `Lists.ReplaceWhere`.
- The weather widget's days-until countdown, its floating-point temperatures and its forecast request are left out; only the code-to-label function is modelled.
- Campsites' `updateMember` and remove handlers and the `MemberRow` component are left out, as is `updateType` in both packing components: each only forwards one field to the server.
- Members.jsx and the other static components are not part of this model.
