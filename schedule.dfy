/**
 * The schedule card: day labels with English ordinals, the new-event form, the order of
 * the local list after an insert, the per-day columns and the mobile day switcher.
 */
module Schedule {
  import opened Wrappers
  import opened JsText
  import opened Lists
  import opened Records
  import CalendarExport

  /** `DAYS`, in festival order. */
  const Days: seq<string> := ["Wednesday", "Thursday Pre-Party", "Friday", "Saturday", "Sunday"]

  /** The days are distinct. */
  lemma DaysDistinct()
    ensures forall a, b :: 0 <= a < b < |Days| ==> Days[a] != Days[b]
  {
  }

  // ---------------------------------------------------------------------------------------
  // Ordinals and day labels
  // ---------------------------------------------------------------------------------------

  /** The table `s = ['th', 'st', 'nd', 'rd']`; an index outside it reads as `undefined`. */
  function SuffixAt(i: int): Option<string> {
    if i == 0 then Some("th")
    else if i == 1 then Some("st")
    else if i == 2 then Some("nd")
    else if i == 3 then Some("rd")
    else None
  }

  /**
   * `s[(v - 20) % 10] || s[v] || s[0]` with `v = n % 100`, both remainders truncating, so
   * that `(v - 20) % 10` is negative or 0 for `v < 20`.
   */
  function OrdinalSuffix(n: int): (r: string)
    ensures r == "th" || r == "st" || r == "nd" || r == "rd"
  {
    var v := JsRem(n, 100);
    var first := SuffixAt(JsRem(v - 20, 10));
    if first.Some? then first.value
    else
      var second := SuffixAt(v);
      if second.Some? then second.value else "th"
  }

  /** `ordinal(n)`: the number followed by its suffix. */
  function Ordinal(n: int): (r: string)
    ensures IntToString(n) <= r && |r| == |IntToString(n)| + 2
  {
    IntToString(n) + OrdinalSuffix(n)
  }

  /** The English rule: 11, 12 and 13 take "th"; otherwise the last digit 1, 2, 3 takes "st", "nd", "rd". */
  function EnglishSuffix(n: nat): string {
    if 11 <= n % 100 <= 13 then "th"
    else if n % 10 == 1 then "st"
    else if n % 10 == 2 then "nd"
    else if n % 10 == 3 then "rd"
    else "th"
  }

  lemma LastDigitOfRemainder(n: nat)
    ensures (n % 100) % 10 == n % 10
  {
    var q := n / 100;
    var v := n % 100;
    assert n == 100 * q + v;
    assert n == 10 * (10 * q + v / 10) + v % 10;
  }

  /** For every natural number the table lookup gives the English suffix. */
  lemma OrdinalIsEnglish(n: nat)
    ensures OrdinalSuffix(n) == EnglishSuffix(n)
  {
    var v := n % 100;
    assert JsRem(n, 100) == v;
    LastDigitOfRemainder(n);
    if v >= 20 {
      LargeRemainder(v);
    } else {
      SmallRemainder(v);
    }
  }

  /** `(v - 20) % 10` for `v` from 20 to 99 is the last digit of `v`. */
  lemma LargeRemainder(v: int)
    requires 20 <= v < 100
    ensures JsRem(v - 20, 10) == v % 10
  {
    assert JsRem(v - 20, 10) == (v - 20) % 10;
  }

  /** `(v - 20) % 10` for `v` below 20: 0 at 0 and 10, otherwise negative. */
  lemma SmallRemainder(v: int)
    requires 0 <= v < 20
    ensures JsRem(v - 20, 10) == (if v == 0 || v == 10 then 0 else if v < 10 then v - 10 else v - 20)
    ensures v % 10 == (if v < 10 then v else v - 10)
  {
    assert JsRem(v - 20, 10) == -((20 - v) % 10);
    if v == 0 {
      assert (20 - v) % 10 == 0;
    } else if v <= 10 {
      assert (20 - v) % 10 == 10 - v;
    } else {
      assert (20 - v) % 10 == 20 - v;
    }
  }

  /** The cases the suffix table is known for. */
  lemma OrdinalExamples()
    ensures OrdinalSuffix(1) == "st" && OrdinalSuffix(2) == "nd" && OrdinalSuffix(3) == "rd"
    ensures OrdinalSuffix(4) == "th" && OrdinalSuffix(11) == "th" && OrdinalSuffix(12) == "th"
    ensures OrdinalSuffix(13) == "th" && OrdinalSuffix(21) == "st" && OrdinalSuffix(22) == "nd"
    ensures OrdinalSuffix(23) == "rd" && OrdinalSuffix(111) == "th" && OrdinalSuffix(101) == "st"
  {
    OrdinalIsEnglish(1);
    OrdinalIsEnglish(2);
    OrdinalIsEnglish(3);
    OrdinalIsEnglish(4);
    OrdinalIsEnglish(11);
    OrdinalIsEnglish(12);
    OrdinalIsEnglish(13);
    OrdinalIsEnglish(21);
    OrdinalIsEnglish(22);
    OrdinalIsEnglish(23);
    OrdinalIsEnglish(111);
    OrdinalIsEnglish(101);
  }

  /**
   * `dayLabel(dayName)`: `DAY_DATE` here is the same table as the calendar export's
   * (`CalendarExport.DayDate`); a known day gets its date as an ordinal in parentheses.
   */
  function DayLabel(day: string): (r: string)
    ensures day <= r
    ensures r == day <==> CalendarExport.DayDate(day).None?
  {
    var date := CalendarExport.DayDate(day);
    if date.Some? then day + " (" + Ordinal(date.value) + ")" else day
  }

  /**
   * Every festival day is labelled with its August date and the suffix "th" (the dates
   * are 12 to 16); any other day name is shown unchanged.
   */
  lemma DayLabelForm(day: string)
    ensures CalendarExport.DayDate(day).Some? ==>
      DayLabel(day) == day + " (" + DecimalString(CalendarExport.DayDate(day).value) + "th)"
    ensures CalendarExport.DayDate(day).None? ==> DayLabel(day) == day
    ensures day in Days <==> CalendarExport.DayDate(day).Some?
  {
    var date := CalendarExport.DayDate(day);
    if date.Some? {
      var d := date.value;
      FestivalDateSuffix(d);
      assert Ordinal(d) == DecimalString(d) + "th";
      Parenthesized(day, DecimalString(d), "th");
    }
    DaysAreDated(day);
  }

  /** The festival dates 12 to 16 all take "th". */
  lemma FestivalDateSuffix(d: nat)
    requires 12 <= d <= 16
    ensures OrdinalSuffix(d) == "th"
  {
    assert JsRem(d, 100) == d;
    SmallRemainder(d);
  }

  lemma Parenthesized(day: string, a: string, b: string)
    ensures day + " (" + (a + b) + ")" == day + " (" + a + b + ")"
  {
  }

  /** The festival days are exactly the days with a date. */
  lemma DaysAreDated(day: string)
    ensures day in Days <==> CalendarExport.DayDate(day).Some?
  {
    if day in Days {
      var j :| 0 <= j < |Days| && Days[j] == day;
      assert j == 0 || j == 1 || j == 2 || j == 3 || j == 4;
    }
  }

  // ---------------------------------------------------------------------------------------
  // The new-event form
  // ---------------------------------------------------------------------------------------

  /** The JSON body of `POST /schedule`. */
  datatype NewEvent = NewEvent(day: string, time: string, title: string, description: Option<string>)

  /**
   * `add`: a blank title sends nothing; otherwise time and title go trimmed, the day as
   * selected, and the description trimmed or `null` when it trims to the empty string.
   */
  function AddRequest(day: string, time: string, title: string, description: string): (r: Option<NewEvent>)
    ensures r.None? <==> IsBlank(title)
    ensures r.Some? ==> r.value.day == day && r.value.title == Trim(title) && r.value.time == Trim(time)
    ensures r.Some? ==> r.value.description == (if IsBlank(description) then None else Some(Trim(description)))
  {
    if Trim(title) == "" then None
    else
      var d := Trim(description);
      Some(NewEvent(day, Trim(time), Trim(title), if d == "" then None else Some(d)))
  }

  /**
   * Every body sent has a non-empty title, no field with surrounding spaces, and no empty
   * description: trimming any of them again changes nothing.
   */
  lemma AddRequestTrimmed(day: string, time: string, title: string, description: string)
    ensures var r := AddRequest(day, time, title, description);
      r.Some? ==>
        (r.value.title != "" && Trim(r.value.title) == r.value.title
        && Trim(r.value.time) == r.value.time
        && (r.value.description.Some? ==>
          r.value.description.value != "" && Trim(r.value.description.value) == r.value.description.value))
  {
    TrimIdempotent(title);
    TrimIdempotent(time);
    TrimIdempotent(description);
  }

  // ---------------------------------------------------------------------------------------
  // The list order after an insert
  // ---------------------------------------------------------------------------------------

  /** `DAYS.indexOf(d)`: the position of a festival day, or -1. */
  function IndexOf(d: string): (r: int)
    ensures -1 <= r < |Days|
    ensures r >= 0 ==> Days[r] == d
    ensures r == -1 <==> d !in Days
  {
    if d == Days[0] then 0
    else if d == Days[1] then 1
    else if d == Days[2] then 2
    else if d == Days[3] then 3
    else if d == Days[4] then 4
    else -1
  }

  /** `ev.time || ''`. */
  function TimeOf(e: ScheduleEvent): string {
    e.time.GetOr("")
  }

  /**
   * The insert comparator: events of the same day compare by time string, events of
   * different days by the difference of their day indices.
   */
  function Compare(a: ScheduleEvent, b: ScheduleEvent): (r: int)
    ensures a.day == b.day ==> (r == 0 <==> TimeOf(a) == TimeOf(b))
    ensures a.day != b.day && a.day in Days && b.day in Days ==> r != 0
    ensures a.day != b.day && a.day !in Days && b.day !in Days ==> r == 0
  {
    if a.day == b.day then CompareStrings(TimeOf(a), TimeOf(b))
    else IndexOf(a.day) - IndexOf(b.day)
  }

  /** A sort key: the day index followed by the character codes of the time. */
  function EventKey(e: ScheduleEvent): seq<int> {
    [IndexOf(e.day)] + Codes(TimeOf(e))
  }

  lemma LexFirstDiffers(x: int, y: int, a: seq<int>, b: seq<int>)
    requires x != y
    ensures LexLe([x] + a, [y] + b) <==> x < y
  {
  }

  /**
   * The key order agrees with the comparator on every pair except two events on two
   * different days outside `DAYS`, which the comparator calls equal.
   */
  lemma KeyAgreesWithCompare(a: ScheduleEvent, b: ScheduleEvent)
    requires a.day == b.day || IndexOf(a.day) != IndexOf(b.day)
    ensures LexLe(EventKey(a), EventKey(b)) <==> Compare(a, b) <= 0
  {
    if a.day == b.day {
      LexCons(IndexOf(a.day), Codes(TimeOf(a)), Codes(TimeOf(b)));
    } else {
      LexFirstDiffers(IndexOf(a.day), IndexOf(b.day), Codes(TimeOf(a)), Codes(TimeOf(b)));
    }
  }

  /**
   * For days outside `DAYS` the comparator is not an order: it calls x equal to y and y
   * equal to z but puts z before x, so the order `sort` produces for such lists depends on
   * the engine.
   */
  lemma CompareInconsistentForUnknownDays()
    ensures var x := ScheduleEvent(1, "Camp A", Some("9"), None, Some("a"), None);
      var y := ScheduleEvent(2, "Camp B", Some("1"), None, Some("b"), None);
      var z := ScheduleEvent(3, "Camp A", Some("1"), None, Some("c"), None);
      Compare(x, y) == 0 && Compare(y, z) == 0 && Compare(z, x) < 0
  {
    var x := ScheduleEvent(1, "Camp A", Some("9"), None, Some("a"), None);
    var z := ScheduleEvent(3, "Camp A", Some("1"), None, Some("c"), None);
    assert TimeOf(z) == "1" && TimeOf(x) == "9";
    assert CompareStrings("1", "9") != 0;
    assert LexLe(Codes("1"), Codes("9"));
  }

  /** `[...prev, ev].sort(comparator)`, as a stable sort by `EventKey`. */
  function InsertEvent(prev: seq<ScheduleEvent>, ev: ScheduleEvent): (r: seq<ScheduleEvent>)
    ensures multiset(r) == multiset(prev) + multiset{ev}
  {
    SortBy(prev + [ev], EventKey)
  }

  /**
   * After an insert the list holds the old events and the new one, and when every event
   * is on a festival day, every earlier event compares at most equal to every later one.
   */
  lemma InsertEventOrdered(prev: seq<ScheduleEvent>, ev: ScheduleEvent)
    requires ev.day in Days && forall k :: 0 <= k < |prev| ==> prev[k].day in Days
    ensures var r := InsertEvent(prev, ev);
      forall i, j :: 0 <= i < j < |r| ==> Compare(r[i], r[j]) <= 0
  {
    var r := InsertEvent(prev, ev);
    SortBySorted(prev + [ev], EventKey);
    forall i, j | 0 <= i < j < |r| ensures Compare(r[i], r[j]) <= 0 {
      assert r[i] in multiset(prev + [ev]) && r[j] in multiset(prev + [ev]);
      assert r[i] in prev + [ev] && r[j] in prev + [ev];
      if r[i].day != r[j].day {
        assert Days[IndexOf(r[i].day)] == r[i].day;
      }
      KeyAgreesWithCompare(r[i], r[j]);
    }
  }

  /** `ev.id`, as a function value for the list helpers. */
  function EventId(e: ScheduleEvent): int {
    e.id
  }

  /** `prev.filter((e) => e.id !== id)`: drops exactly the events with that id. */
  function RemoveEvent(events: seq<ScheduleEvent>, id: int): (r: seq<ScheduleEvent>)
    ensures forall k :: 0 <= k < |r| ==> r[k].id != id && r[k] in events
    ensures forall k :: 0 <= k < |events| && events[k].id != id ==> multiset(r)[events[k]] == multiset(events)[events[k]]
  {
    RemoveWhereKeeps(events, EventId, id);
    RemoveWhere(events, EventId, id)
  }

  /** Two festival-day events compare as their keys do. */
  lemma KnownDaysAgree(a: ScheduleEvent, b: ScheduleEvent)
    requires a.day in Days && b.day in Days
    ensures LexLe(EventKey(a), EventKey(b)) <==> Compare(a, b) <= 0
  {
    if a.day != b.day {
      assert Days[IndexOf(a.day)] == a.day && Days[IndexOf(b.day)] == b.day;
    }
    KeyAgreesWithCompare(a, b);
  }

  /** A list the inserts keep in comparator order stays in that order after a removal. */
  lemma RemoveEventKeepsOrder(events: seq<ScheduleEvent>, id: int)
    requires forall k :: 0 <= k < |events| ==> events[k].day in Days
    requires forall i, j :: 0 <= i < j < |events| ==> Compare(events[i], events[j]) <= 0
    ensures var r := RemoveEvent(events, id);
      forall i, j :: 0 <= i < j < |r| ==> Compare(r[i], r[j]) <= 0
  {
    forall i, j | 0 <= i < j < |events| ensures LexLe(EventKey(events[i]), EventKey(events[j])) {
      KnownDaysAgree(events[i], events[j]);
    }
    RemoveWhereSorted(events, EventId, id, EventKey);
    var r := RemoveEvent(events, id);
    forall i, j | 0 <= i < j < |r| ensures Compare(r[i], r[j]) <= 0 {
      KnownDaysAgree(r[i], r[j]);
    }
  }

  // ---------------------------------------------------------------------------------------
  // The per-day columns
  // ---------------------------------------------------------------------------------------

  /** `ev.day`, as a function value for the list helpers. */
  function EventDay(e: ScheduleEvent): string {
    e.day
  }

  /** The festival days, as the base keys of the columns. */
  function DaySet(): set<string> {
    set d | d in Days
  }

  /** The events of `es` on day `d`, in list order. */
  function Bucket(es: seq<ScheduleEvent>, d: string): seq<ScheduleEvent> {
    Filter(es, HasKey(EventDay, d))
  }

  /** The day names that key the columns: the festival days, then every day an event names. */
  function ColumnKeys(es: seq<ScheduleEvent>): set<string> {
    DaySet() + (set x | x in es :: EventDay(x))
  }

  /** The columns after the `forEach` that pushes every event into the column of its day. */
  function Bucketed(es: seq<ScheduleEvent>): map<string, seq<ScheduleEvent>> {
    Grouped(DaySet(), es, EventDay)
  }

  /** `(a.time || '')` as a sort key. */
  function TimeKey(e: ScheduleEvent): seq<int> {
    Codes(TimeOf(e))
  }

  /**
   * The reference for `byDay`: a column for every key, holding that day's events; the
   * columns of the five festival days sorted by time, the others in list order.
   */
  function ByDaySpec(es: seq<ScheduleEvent>): map<string, seq<ScheduleEvent>> {
    map d | d in ColumnKeys(es) :: if d in Days then SortBy(Bucket(es, d), TimeKey) else Bucket(es, d)
  }

  /** Each festival day sits at its own index. */
  lemma IndexOfDay(j: nat)
    requires j < |Days|
    ensures IndexOf(Days[j]) == j
  {
    DaysDistinct();
  }

  /** A column sorted by time. */
  function SortByTime(column: seq<ScheduleEvent>): seq<ScheduleEvent> {
    SortBy(column, TimeKey)
  }

  /** The columns of `m` with `f` applied to the first `j` festival days. */
  function Overlay<V>(m: map<string, V>, f: V -> V, j: int): map<string, V> {
    map d | d in m :: if 0 <= IndexOf(d) < j then f(m[d]) else m[d]
  }

  /** Applying `f` to the column of festival day `j` advances the overlay by one day. */
  lemma OverlayStep<V>(m: map<string, V>, f: V -> V, j: nat)
    requires j < |Days| && Days[j] in m
    ensures Overlay(m, f, j + 1) == Overlay(m, f, j)[Days[j] := f(Overlay(m, f, j)[Days[j]])]
  {
    IndexOfDay(j);
    var before := Overlay(m, f, j);
    var after := Overlay(m, f, j + 1);
    var expected := before[Days[j] := f(before[Days[j]])];
    assert after.Keys == expected.Keys;
    forall x | x in after ensures after[x] == expected[x] {
      if x != Days[j] {
        assert IndexOf(x) != j;
      }
    }
  }

  /** With all five festival columns sorted, the overlay is the reference. */
  lemma OverlayComplete(es: seq<ScheduleEvent>)
    ensures Overlay(Bucketed(es), SortByTime, |Days|) == ByDaySpec(es)
  {
  }

  /** Some event names a day that `byDay[ev.day]` finds on `Object.prototype`. */
  predicate NamesInheritedDay(events: seq<ScheduleEvent>) {
    exists k :: 0 <= k < |events| && events[k].day in ObjectPrototypeKeys
  }

  /**
   * `byDay`: starts from an empty column per festival day, pushes each event into the
   * column of its day (creating one for an unknown day), then sorts the five festival
   * columns by time. `None` is the TypeError that ends the render when an event's day is
   * a property the object inherits.
   */
  method ByDay(events: seq<ScheduleEvent>) returns (byDay: Option<map<string, seq<ScheduleEvent>>>)
    ensures byDay.None? <==> NamesInheritedDay(events)
    ensures byDay.Some? ==> byDay.value == ByDaySpec(events)
  {
    var columns := PushByDay(events);
    if columns.None? {
      return None;
    }
    var sorted := SortFestivalColumns(columns.value);
    OverlayComplete(events);
    return Some(sorted);
  }

  /** The `reduce` of `byDay`: an empty column per festival day, which is the grouping of no event. */
  lemma PushByDayStart(events: seq<ScheduleEvent>)
    ensures (map d | d in Days :: []) == Bucketed(events[..0])
  {
    assert events[..0] == [];
    GroupedEmpty(DaySet(), EventDay);
  }

  /**
   * The `reduce` and the `forEach` of `byDay`: every event pushed into the column of its
   * day. `byDay[ev.day]` is truthy for an own column, and also for a function or object
   * inherited from `Object.prototype`, which has no `push`: that call throws (`None`).
   */
  method PushByDay(events: seq<ScheduleEvent>) returns (byDay: Option<map<string, seq<ScheduleEvent>>>)
    ensures byDay.None? <==> NamesInheritedDay(events)
    ensures byDay.Some? ==> byDay.value == Bucketed(events)
  {
    var columns: map<string, seq<ScheduleEvent>> := map d | d in Days :: [];
    PushByDayStart(events);
    for i := 0 to |events|
      invariant columns == Bucketed(events[..i])
      invariant forall k :: 0 <= k < i ==> events[k].day !in ObjectPrototypeKeys
    {
      var ev := events[i];
      PushStep(events, i, columns);
      if ev.day in columns {
        OwnColumnNotInherited(events, i, ev.day);
        columns := columns[ev.day := columns[ev.day] + [ev]];
      } else if ev.day in ObjectPrototypeKeys {
        return None;
      } else {
        columns := columns[ev.day := [ev]];
      }
    }
    assert events[..|events|] == events;
    return Some(columns);
  }

  /** A column the loop created is never a property of `Object.prototype`. */
  lemma OwnColumnNotInherited(events: seq<ScheduleEvent>, i: nat, d: string)
    requires i <= |events|
    requires forall k :: 0 <= k < i ==> events[k].day !in ObjectPrototypeKeys
    requires d in Bucketed(events[..i])
    ensures d !in ObjectPrototypeKeys
  {
    if d !in DaySet() {
      var x :| x in events[..i] && EventDay(x) == d;
      var k :| 0 <= k < i && events[..i][k] == x;
      assert events[k].day == d;
    }
  }

  /** One push of the `forEach`, in the form the loop writes it. */
  lemma PushStep(events: seq<ScheduleEvent>, i: nat, byDay: map<string, seq<ScheduleEvent>>)
    requires i < |events| && byDay == Bucketed(events[..i])
    ensures var ev := events[i];
      Bucketed(events[..i + 1]) == if ev.day in byDay then byDay[ev.day := byDay[ev.day] + [ev]] else byDay[ev.day := [ev]]
  {
    GroupedPrefix(DaySet(), events, i, EventDay);
    assert [] + [events[i]] == [events[i]];
  }

  /** The second `forEach` of `byDay`: each festival column sorted by time, in day order. */
  method SortFestivalColumns(columns: map<string, seq<ScheduleEvent>>) returns (byDay: map<string, seq<ScheduleEvent>>)
    requires forall j :: 0 <= j < |Days| ==> Days[j] in columns
    ensures byDay == Overlay(columns, SortByTime, |Days|)
  {
    byDay := columns;
    assert byDay == Overlay(columns, SortByTime, 0);
    for j := 0 to |Days|
      invariant byDay == Overlay(columns, SortByTime, j)
    {
      OverlayStep(columns, SortByTime, j);
      byDay := byDay[Days[j] := SortBy(byDay[Days[j]], TimeKey)];
    }
  }

  /**
   * Every event lands in the column of its own day, as often as it occurs in the list, and
   * in no other column; every festival day has a column, and so has every day an event
   * names.
   */
  lemma ByDayPartition(es: seq<ScheduleEvent>, e: ScheduleEvent, d: string)
    ensures d in ByDaySpec(es) <==> d in Days || exists k :: 0 <= k < |es| && es[k].day == d
    ensures e in es ==> e.day in ByDaySpec(es) && multiset(ByDaySpec(es)[e.day])[e] == multiset(es)[e]
    ensures d in ByDaySpec(es) && d != e.day ==> e !in ByDaySpec(es)[d]
  {
    if e in es {
      assert e.day in ColumnKeys(es);
      FilterCount(es, HasKey(EventDay, e.day), e);
      SortBySorted(Bucket(es, e.day), TimeKey);
    }
    if d in ByDaySpec(es) && d != e.day {
      assert e !in Bucket(es, d);
      SortBySorted(Bucket(es, d), TimeKey);
      assert multiset(ByDaySpec(es)[d])[e] == 0;
    }
    if d in ByDaySpec(es) && d !in Days {
      var x :| x in es && x.day == d;
      var k :| 0 <= k < |es| && es[k] == x;
    }
    if d in Days {
      assert d in DaySet();
    }
    if k :| 0 <= k < |es| && es[k].day == d {
      assert EventDay(es[k]) in (set x | x in es :: EventDay(x));
    }
  }

  /** The five festival columns are in order of their time strings, `null` read as `""`. */
  lemma ByDayColumnsSorted(es: seq<ScheduleEvent>, d: string)
    requires d in Days
    ensures d in ByDaySpec(es) && SortedBy(ByDaySpec(es)[d], TimeKey)
  {
    SortBySorted(Bucket(es, d), TimeKey);
  }

  // ---------------------------------------------------------------------------------------
  // The mobile day switcher
  // ---------------------------------------------------------------------------------------

  /** `DEFAULT_DAY_INDEX`: the switcher opens on Friday. */
  const DefaultDayIndex: int := 2

  /** The left arrow: `Math.max(0, i - 1)`. */
  function PreviousDay(i: int): (r: int)
    ensures r >= 0 && r >= i - 1 && (r == 0 || r == i - 1)
  {
    if i - 1 > 0 then i - 1 else 0
  }

  /** The right arrow: `Math.min(DAYS.length - 1, i + 1)`. */
  function NextDay(i: int): (r: int)
    ensures r <= |Days| - 1 && r <= i + 1 && (r == |Days| - 1 || r == i + 1)
  {
    if i + 1 < |Days| - 1 then i + 1 else |Days| - 1
  }

  /** A run of arrow presses, `true` for the right arrow. */
  function Walk(i: int, presses: seq<bool>): int
    decreases |presses|
  {
    if presses == [] then i
    else Walk(if presses[0] then NextDay(i) else PreviousDay(i), presses[1..])
  }

  /** Both arrows keep an index inside `DAYS`, and move it by at most one. */
  lemma ArrowsStayInRange(i: int)
    requires 0 <= i < |Days|
    ensures 0 <= PreviousDay(i) < |Days| && 0 <= NextDay(i) < |Days|
    ensures PreviousDay(i) == (if i == 0 then 0 else i - 1)
    ensures NextDay(i) == (if i == |Days| - 1 then i else i + 1)
  {
  }

  /** From the default, every run of presses leaves `DAYS[mobileDayIndex]` defined. */
  lemma {:induction false} WalkStaysInRange(i: int, presses: seq<bool>)
    requires 0 <= i < |Days|
    ensures 0 <= Walk(i, presses) < |Days|
    decreases |presses|
  {
    if presses != [] {
      ArrowsStayInRange(i);
      WalkStaysInRange(if presses[0] then NextDay(i) else PreviousDay(i), presses[1..]);
    }
  }

  lemma DefaultIsFriday()
    ensures 0 <= DefaultDayIndex < |Days| && Days[DefaultDayIndex] == "Friday"
  {
  }
}
