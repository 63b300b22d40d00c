/**
 * Calendar export of schedule events: festival-local day and time to a UTC instant,
 * the `YYYYMMDDTHHMMSSZ` DATE-TIME form of section 3.3.5 of RFC 5545, TEXT escaping of
 * section 3.3.11, and the CRLF-joined VEVENT and VCALENDAR content of sections 3.1, 3.4
 * and 3.6.1.
 *
 * Instants of the festival are counted in minutes from 2026-08-01T00:00Z. `new Date()`
 * (the current time) is not modelled: it becomes `Now(k)`, the current time plus `k`
 * minutes, and its rendering in UTC is the parameter `clock(k)`.
 */
module CalendarExport {
  import opened Wrappers
  import opened JsText
  import opened Records

  /** `DAY_DATE`: the August date of each festival day, its only own properties. */
  function DayDate(day: string): (r: Option<nat>)
    ensures r.Some? ==> 12 <= r.value <= 16
  {
    if day == "Wednesday" then Some(12)
    else if day == "Thursday Pre-Party" then Some(13)
    else if day == "Friday" then Some(14)
    else if day == "Saturday" then Some(15)
    else if day == "Sunday" then Some(16)
    else None
  }

  /** `FESTIVAL_TZ_OFFSET = '-07:00'`: local time is UTC minus seven hours. */
  const OffsetMinutes: nat := 7 * 60

  // ---------------------------------------------------------------------------------------
  // parseTime
  // ---------------------------------------------------------------------------------------

  datatype Time = Time(hours: nat, minutes: nat)

  const DefaultTime := Time(12, 0)

  /** `/^(\d{1,2}):(\d{2})$/`: one or two digits, a colon, two digits. */
  predicate IsTimeSyntax(t: string) {
    && (|t| == 4 || |t| == 5)
    && t[|t| - 3] == ':'
    && AllDigits(t[..|t| - 3])
    && AllDigits(t[|t| - 2..])
  }

  /**
   * `parseTime`: noon for a missing, empty or malformed time; otherwise the hour and minute
   * fields, with an hour of 24 or more read as 0 and the minutes passed through unclamped.
   * (`parseInt(...) || 0` on two digits is the digits' value, 0 included.) A non-string
   * argument is `None`.
   */
  function ParseTime(s: Option<string>): (r: Time)
    ensures r.hours < 24 && r.minutes < 100
    ensures s.None? || s == Some("") ==> r == DefaultTime
    ensures s.Some? && !IsTimeSyntax(Trim(s.value)) ==> r == DefaultTime
  {
    if s.None? || s.value == "" then DefaultTime
    else
      var t := Trim(s.value);
      if !IsTimeSyntax(t) then DefaultTime
      else
        var hours := DigitsValue(t[..|t| - 3]);
        var minutes := DigitsValue(t[|t| - 2..]);
        TwoDigitValue(t[|t| - 2..]);
        Time(if hours >= 24 then 0 else hours, minutes)
  }

  /** `parseTime` reads back `H:MM` and `HH:MM` for every clock time, with or without padding. */
  lemma ParseTimeOfClock(h: nat, m: nat)
    requires h < 24 && m < 100
    ensures ParseTime(Some(DecimalString(h) + ":" + TwoDigits(m))) == Time(h, m)
    ensures ParseTime(Some(TwoDigits(h) + ":" + TwoDigits(m))) == Time(h, m)
  {
    DecimalStringBelow100(h);
    ParseTimeOfFields(DecimalString(h), TwoDigits(m));
    ParseTimeOfFields(TwoDigits(h), TwoDigits(m));
  }

  lemma ParseTimeOfFields(hh: string, mm: string)
    requires 1 <= |hh| <= 2 && AllDigits(hh) && |mm| == 2 && AllDigits(mm)
    ensures ParseTime(Some(hh + ":" + mm))
      == Time(if DigitsValue(hh) >= 24 then 0 else DigitsValue(hh), DigitsValue(mm))
  {
    TimeFields(hh, mm);
  }

  lemma TimeFields(hh: string, mm: string)
    requires 1 <= |hh| <= 2 && AllDigits(hh) && |mm| == 2 && AllDigits(mm)
    ensures var t := hh + ":" + mm;
      && Trim(t) == t && IsTimeSyntax(t)
      && t[..|t| - 3] == hh && t[|t| - 2..] == mm
  {
    var t := hh + ":" + mm;
    assert t[0] == hh[0] && t[|t| - 1] == mm[1];
    TrimOfUnpadded(t);
    assert t[..|t| - 3] == hh;
    assert t[|t| - 2..] == mm;
  }

  /** An hour field from 24 to 99 is read as midnight. */
  lemma ParseTimeWrapsHours(h: nat, m: nat)
    requires 24 <= h < 100 && m < 100
    ensures ParseTime(Some(TwoDigits(h) + ":" + TwoDigits(m))) == Time(0, m)
  {
    ParseTimeOfFields(TwoDigits(h), TwoDigits(m));
  }

  /** Surrounding space is ignored. */
  lemma ParseTimeIgnoresSpace(s: string)
    requires s != "" && Trim(s) != ""
    ensures ParseTime(Some(s)) == ParseTime(Some(Trim(s)))
  {
    var t := Trim(s);
    TrimOfUnpadded(t);
  }

  // ---------------------------------------------------------------------------------------
  // Instants
  // ---------------------------------------------------------------------------------------

  type AugustMinute = t: nat | t < 31 * 1440

  /**
   * A JavaScript `Date` as the export produces it: a minute of August 2026 (UTC), an
   * Invalid Date, or the current time plus some minutes.
   */
  datatype Moment = At(t: AugustMinute) | InvalidDate | Now(offset: nat)

  /**
   * `eventStartDate(day, time)`: the ISO string `2026-08-DDTHH:MM:00-07:00` read as an
   * instant. A day that is no property of `DAY_DATE` is the current time. A day naming
   * a property `DAY_DATE` inherits from `Object.prototype` passes the `== null` test, puts
   * the text of that function or object where the date belongs, and so yields an Invalid
   * Date; so does a minute field of 60 or more.
   */
  function EventStart(day: string, time: Option<string>): (r: Moment)
    ensures r == Now(0) <==> DayDate(day).None? && day !in ObjectPrototypeKeys
    ensures r.At? ==> r.t < 17 * 1440
    ensures r == InvalidDate <==>
      (DayDate(day).None? && day in ObjectPrototypeKeys) || (DayDate(day).Some? && ParseTime(time).minutes >= 60)
  {
    match DayDate(day)
    case None => if day in ObjectPrototypeKeys then InvalidDate else Now(0)
    case Some(d) =>
      var tm := ParseTime(time);
      if tm.minutes >= 60 then InvalidDate
      else At((d - 1) * 1440 + tm.hours * 60 + tm.minutes + OffsetMinutes)
  }

  /** The UTC calendar fields of a minute of August 2026: date, hour, minute. */
  datatype UtcFields = UtcFields(date: nat, hour: nat, minute: nat)

  function FieldsOf(t: AugustMinute): (f: UtcFields)
    ensures 1 <= f.date <= 31 && f.hour < 24 && f.minute < 60
    ensures t == (f.date - 1) * 1440 + f.hour * 60 + f.minute
  {
    UtcFields(t / 1440 + 1, (t % 1440) / 60, t % 60)
  }

  /**
   * The UTC instant is festival-local time plus seven hours: same minute, the hour moved
   * on by seven modulo 24, and the date moved to the next day when that wraps.
   */
  lemma UtcIsLocalPlusSeven(day: string, time: Option<string>)
    requires DayDate(day).Some? && ParseTime(time).minutes < 60
    ensures EventStart(day, time).At?
    ensures var f := FieldsOf(EventStart(day, time).t);
      var local := ParseTime(time);
      && f.minute == local.minutes
      && f.hour == (local.hours + 7) % 24
      && f.date == DayDate(day).value + (local.hours + 7) / 24
  {
    var tm := ParseTime(time);
    LocalPlusSeven(DayDate(day).value, tm.hours, tm.minutes, EventStart(day, time).t);
  }

  /** The arithmetic of `UtcIsLocalPlusSeven`, on the fields alone. */
  lemma LocalPlusSeven(d: nat, h: nat, mi: nat, t: AugustMinute)
    requires 1 <= d && h < 24 && mi < 60
    requires t == (d - 1) * 1440 + h * 60 + mi + OffsetMinutes
    ensures var f := FieldsOf(t);
      && f.minute == mi
      && f.hour == (h + 7) % 24
      && f.date == d + (h + 7) / 24
  {
    var carry := (h + 7) / 24;
    var hour := (h + 7) % 24;
    CarryHour(d - 1, h, carry, hour);
    var f := FieldsOf(t);
    FieldsUnique(d - 1 + carry, hour, mi, f.date - 1, f.hour, f.minute);
  }

  /** Seven hours on from hour `h` of day `d0` is hour `hour` of day `d0 + carry`. */
  lemma CarryHour(d0: int, h: nat, carry: int, hour: int)
    requires carry == (h + 7) / 24 && hour == (h + 7) % 24
    ensures d0 * 1440 + h * 60 + OffsetMinutes == (d0 + carry) * 1440 + hour * 60
  {
    assert h + 7 == carry * 24 + hour;
    assert carry * 1440 == (carry * 24) * 60;
  }

  /** Day, hour and minute are determined by the minute count. */
  lemma FieldsUnique(d1: nat, h1: nat, m1: nat, d2: nat, h2: nat, m2: nat)
    requires h1 < 24 && m1 < 60 && h2 < 24 && m2 < 60
    requires d1 * 1440 + h1 * 60 + m1 == d2 * 1440 + h2 * 60 + m2
    ensures d1 == d2 && h1 == h2 && m1 == m2
  {
    assert h1 * 60 + m1 < 1440 && h2 * 60 + m2 < 1440;
    assert h1 * 60 + m1 == h2 * 60 + m2;
  }

  /** Thirty minutes later; an Invalid Date stays invalid. */
  function Plus30(m: Moment): (r: Moment)
    requires m.At? ==> m.t < 17 * 1440
    ensures m.At? ==> r.At? && r.t == m.t + 30
    ensures m == InvalidDate <==> r == InvalidDate
    ensures m.Now? ==> r == Now(m.offset + 30)
  {
    match m
    case At(t) => At(t + 30)
    case InvalidDate => InvalidDate
    case Now(k) => Now(k + 30)
  }

  /** `eventEndDate`: the end time when it is non-blank, else thirty minutes after the start. */
  function EventEnd(day: string, time: Option<string>, endTime: Option<string>): (r: Moment)
    ensures endTime.Some? && !IsBlank(endTime.value) ==> r == EventStart(day, endTime)
    ensures (endTime.None? || IsBlank(endTime.value)) ==> r == Plus30(EventStart(day, time))
  {
    if endTime.Some? && endTime.value != "" && Trim(endTime.value) != "" then EventStart(day, endTime)
    else Plus30(EventStart(day, time))
  }

  // ---------------------------------------------------------------------------------------
  // toUTCString
  // ---------------------------------------------------------------------------------------

  /**
   * `toUTCString(d)`: year, month, date, `T`, hours, minutes, seconds, `Z`, each field
   * zero-padded to two digits. An Invalid Date prints `NaN` for every field.
   */
  function UtcString(m: Moment, clock: nat -> string): (r: string)
    ensures m.At? ==> |r| == 16 && r[..6] == "202608" && r[8] == 'T' && r[13..] == "00Z"
    ensures m.InvalidDate? ==> |r| == 20 && r[..3] == "NaN" && r[9] == 'T' && r[19] == 'Z'
    ensures m.Now? ==> r == clock(m.offset)
  {
    match m
    case At(t) =>
      var f := FieldsOf(t);
      "2026" + TwoDigits(8) + TwoDigits(f.date) + "T" + TwoDigits(f.hour) + TwoDigits(f.minute) + TwoDigits(0) + "Z"
    case InvalidDate => "NaN" + "NaN" + "NaN" + "T" + "NaN" + "NaN" + "NaN" + "Z"
    case Now(k) => clock(k)
  }

  /** Reads a `YYYYMMDDTHHMMSSZ` string of August 2026 back into its minute. */
  function ParseUtc(s: string): (r: Option<nat>)
    ensures r.Some? ==> |s| == 16 && s[..6] == "202608" && s[8] == 'T' && s[13..] == "00Z"
  {
    if |s| == 16 && s[..4] == "2026" && s[4..6] == "08" && s[8] == 'T' && s[15] == 'Z' && s[13..15] == "00"
      && AllDigits(s[6..8]) && AllDigits(s[9..11]) && AllDigits(s[11..13]) && DigitsValue(s[6..8]) >= 1
    then Some((DigitsValue(s[6..8]) - 1) * 1440 + DigitsValue(s[9..11]) * 60 + DigitsValue(s[11..13]))
    else None
  }

  /**
   * For a valid instant the string is 16 characters in the DATE-TIME UTC form, with digits
   * in every field, and it reads back to the same instant.
   */
  lemma UtcStringForm(t: AugustMinute, clock: nat -> string)
    ensures var s := UtcString(At(t), clock);
      && |s| == 16 && s[8] == 'T' && s[15] == 'Z'
      && AllDigits(s[..8]) && AllDigits(s[9..15])
      && ParseUtc(s) == Some(t)
  {
    var f := FieldsOf(t);
    var dd, hh, mi := TwoDigits(f.date), TwoDigits(f.hour), TwoDigits(f.minute);
    assert TwoDigits(8) == "08" by {
      assert DecimalString(8) == "8";
    }
    assert TwoDigits(0) == "00" by {
      assert DecimalString(0) == "0";
    }
    UtcLayout("08", dd, hh, mi, "00");
  }

  /** Where each field of a `YYYYMMDDTHHMMSSZ` string sits. */
  lemma UtcLayout(mo: string, dd: string, hh: string, mi: string, ss: string)
    requires |mo| == 2 && |dd| == 2 && |hh| == 2 && |mi| == 2 && |ss| == 2
    requires AllDigits(mo) && AllDigits(dd) && AllDigits(hh) && AllDigits(mi) && AllDigits(ss)
    ensures var s := "2026" + mo + dd + "T" + hh + mi + ss + "Z";
      && |s| == 16 && s[..4] == "2026" && s[4..6] == mo && s[6..8] == dd && s[8] == 'T'
      && s[9..11] == hh && s[11..13] == mi && s[13..15] == ss && s[15] == 'Z'
      && AllDigits(s[..8]) && AllDigits(s[9..15])
  {
    var s := "2026" + mo + dd + "T" + hh + mi + ss + "Z";
    assert s[..8] == "2026" + mo + dd;
    assert s[9..15] == hh + mi + ss;
  }

  /** An Invalid Date prints `NaN` in every field. */
  lemma InvalidDateString(clock: nat -> string)
    ensures UtcString(InvalidDate, clock) == "NaNNaNNaNTNaNNaNNaNZ"
    ensures ParseUtc(UtcString(InvalidDate, clock)).None?
  {
  }

  /**
   * A day named like an `Object.prototype` member finds an inherited value in `DAY_DATE`:
   * start and end are Invalid Dates, whatever the times, and both print `NaN` fields.
   */
  lemma InheritedDayPrintsNaN(ev: ScheduleEvent, clock: nat -> string)
    requires ev.day in ObjectPrototypeKeys
    ensures EventStart(ev.day, ev.time) == InvalidDate
    ensures EventEnd(ev.day, ev.time, ev.endTime) == InvalidDate
    ensures UtcString(EventStart(ev.day, ev.time), clock) == "NaNNaNNaNTNaNNaNNaNZ"
    ensures UtcString(EventEnd(ev.day, ev.time, ev.endTime), clock) == "NaNNaNNaNTNaNNaNNaNZ"
  {
    assert DayDate(ev.day).None?;
    InvalidDateString(clock);
  }

  // ---------------------------------------------------------------------------------------
  // Google Calendar dates
  // ---------------------------------------------------------------------------------------

  /** The `dates` parameter of `googleCalendarUrl`: start and end in UTC, joined by `/`. */
  function CalendarDates(ev: ScheduleEvent, clock: nat -> string): (r: string)
    ensures EventStart(ev.day, ev.time).At? ==> |r| > 17 && r[16] == '/'
    ensures EventStart(ev.day, ev.time) == InvalidDate ==> |r| > 21 && r[..3] == "NaN" && r[20] == '/'
  {
    var a := UtcString(EventStart(ev.day, ev.time), clock);
    var b := UtcString(EventEnd(ev.day, ev.time, ev.endTime), clock);
    SlashAt(a, b);
    a + "/" + b
  }

  /** `a + "/" + b` keeps `a` in front and puts the slash right after it. */
  lemma SlashAt(a: string, b: string)
    ensures var r := a + "/" + b; |r| == |a| + |b| + 1 && r[..|a|] == a && r[|a|] == '/'
  {
  }

  /** For a festival day and valid times, `dates` is two DATE-TIME values that read back. */
  lemma CalendarDatesForm(ev: ScheduleEvent, clock: nat -> string)
    requires EventStart(ev.day, ev.time).At? && EventEnd(ev.day, ev.time, ev.endTime).At?
    ensures var s := CalendarDates(ev, clock);
      && |s| == 33 && s[16] == '/'
      && ParseUtc(s[..16]) == Some(EventStart(ev.day, ev.time).t)
      && ParseUtc(s[17..]) == Some(EventEnd(ev.day, ev.time, ev.endTime).t)
  {
    var a := UtcString(EventStart(ev.day, ev.time), clock);
    var b := UtcString(EventEnd(ev.day, ev.time, ev.endTime), clock);
    UtcStringForm(EventStart(ev.day, ev.time).t, clock);
    UtcStringForm(EventEnd(ev.day, ev.time, ev.endTime).t, clock);
    JoinSlash(a, b);
  }

  /** Two 16-character values joined by `/`, and where each sits. */
  lemma JoinSlash(a: string, b: string)
    requires |a| == 16 && |b| == 16
    ensures var s := a + "/" + b;
      |s| == 33 && s[16] == '/' && s[..16] == a && s[17..] == b
  {
    var s := a + "/" + b;
    assert s[..16] == a;
    assert s[17..] == b;
  }

  // ---------------------------------------------------------------------------------------
  // TEXT escaping
  // ---------------------------------------------------------------------------------------

  /** The escape of one character under section 3.3.11 of RFC 5545. */
  function EscapeChar(c: char): (r: string)
    ensures 1 <= |r| <= 2 && '\n' !in r
    ensures |r| == 2 <==> c == '\\' || c == ';' || c == ',' || c == '\n'
    ensures |r| == 2 ==> r[0] == '\\'
    ensures |r| == 1 ==> r == [c]
  {
    if c == '\\' then "\\\\"
    else if c == ';' then "\\;"
    else if c == ',' then "\\,"
    else if c == '\n' then "\\n"
    else [c]
  }

  /** Character-by-character escaping: the reference the `replace` chain is checked against. */
  function EscapeEach(s: string): (r: string)
    ensures |s| <= |r| <= 2 * |s|
    ensures '\n' !in r
  {
    if s == [] then [] else EscapeChar(s[0]) + EscapeEach(s[1..])
  }

  /** The four `replace` passes of `escapeIcsText`, in the source's order. */
  function EscapeChain(s: string): (r: string)
    ensures '\n' !in r
    ensures forall x :: x in r ==> x in s || x == '\\' || x == ';' || x == ',' || x == 'n'
  {
    ReplaceChar(ReplaceChar(ReplaceChar(ReplaceChar(s, '\\', "\\\\"), ';', "\\;"), ',', "\\,"), '\n', "\\n")
  }

  lemma EscapeChainOfChar(c: char)
    ensures EscapeChain([c]) == EscapeChar(c)
  {
    ReplaceCharSingle(c, '\\', "\\\\");
    var p1 := ReplaceChar([c], '\\', "\\\\");
    if c == '\\' {
      ReplaceCharAbsent(p1, ';', "\\;");
      ReplaceCharAbsent(p1, ',', "\\,");
      ReplaceCharAbsent(p1, '\n', "\\n");
    } else {
      ReplaceCharSingle(c, ';', "\\;");
      var p2 := ReplaceChar(p1, ';', "\\;");
      if c == ';' {
        ReplaceCharAbsent(p2, ',', "\\,");
        ReplaceCharAbsent(p2, '\n', "\\n");
      } else {
        ReplaceCharSingle(c, ',', "\\,");
        var p3 := ReplaceChar(p2, ',', "\\,");
        if c == ',' {
          ReplaceCharAbsent(p3, '\n', "\\n");
        } else {
          ReplaceCharSingle(c, '\n', "\\n");
        }
      }
    }
  }

  lemma EscapeChainAppend(a: string, b: string)
    ensures EscapeChain(a + b) == EscapeChain(a) + EscapeChain(b)
  {
    var p1a, p1b := ReplaceChar(a, '\\', "\\\\"), ReplaceChar(b, '\\', "\\\\");
    ReplaceCharAppend(a, b, '\\', "\\\\");
    var p2a, p2b := ReplaceChar(p1a, ';', "\\;"), ReplaceChar(p1b, ';', "\\;");
    ReplaceCharAppend(p1a, p1b, ';', "\\;");
    var p3a, p3b := ReplaceChar(p2a, ',', "\\,"), ReplaceChar(p2b, ',', "\\,");
    ReplaceCharAppend(p2a, p2b, ',', "\\,");
    ReplaceCharAppend(p3a, p3b, '\n', "\\n");
  }

  lemma {:induction false} EscapeChainIsEach(s: string)
    ensures EscapeChain(s) == EscapeEach(s)
  {
    if s == [] {
    } else {
      assert s == [s[0]] + s[1..];
      EscapeChainAppend([s[0]], s[1..]);
      EscapeChainOfChar(s[0]);
      EscapeChainIsEach(s[1..]);
    }
  }

  /**
   * `escapeIcsText`: backslash, semicolon, comma and newline get a backslash (newline as
   * `\n`); the result is the character-by-character escape and holds no line break.
   * For a string, the falsy case is `""`, which the passes also map to `""`.
   */
  function EscapeIcsText(s: string): (r: string)
    ensures r == EscapeEach(s)
    ensures '\n' !in r
    ensures s == "" ==> r == ""
  {
    EscapeChainIsEach(s);
    ReplaceChar(ReplaceChar(ReplaceChar(ReplaceChar(s, '\\', "\\\\"), ';', "\\;"), ',', "\\,"), '\n', "\\n")
  }

  /** Reading an escaped TEXT value back. */
  function Unescape(t: string): (r: string)
    ensures |r| <= |t|
    decreases |t|
  {
    if t == [] then []
    else if t[0] == '\\' && |t| >= 2 then [if t[1] == 'n' then '\n' else t[1]] + Unescape(t[2..])
    else [t[0]] + Unescape(t[1..])
  }

  /** Unescaping the output restores the input. */
  lemma UnescapeEscape(s: string)
    ensures Unescape(EscapeIcsText(s)) == s
  {
    UnescapeEach(s);
  }

  lemma {:induction false} UnescapeEach(s: string)
    ensures Unescape(EscapeEach(s)) == s
  {
    if s != [] {
      UnescapeEach(s[1..]);
      UnescapeChar(s[0], EscapeEach(s[1..]));
      assert s == [s[0]] + s[1..];
    }
  }

  /** Unescaping one escaped character in front of the rest gives the character back first. */
  lemma UnescapeChar(c: char, rest: string)
    ensures Unescape(EscapeChar(c) + rest) == [c] + Unescape(rest)
  {
    var e := EscapeChar(c);
    if |e| == 2 {
      assert (e + rest)[2..] == rest;
    } else {
      assert (e + rest)[1..] == rest;
    }
  }


  /** The same passes with the backslash pass last, which the round trip rules out. */
  function EscapeBackslashLast(s: string): string {
    ReplaceChar(ReplaceChar(ReplaceChar(ReplaceChar(s, ';', "\\;"), ',', "\\,"), '\n', "\\n"), '\\', "\\\\")
  }

  /** Escaping the backslash after the others would double the backslashes they insert. */
  lemma BackslashFirstMatters()
    ensures EscapeBackslashLast(";") == "\\\\;"
    ensures Unescape(EscapeBackslashLast(";")) != ";"
    ensures Unescape(EscapeIcsText(";")) == ";"
  {
    var p1 := ReplaceChar(";", ';', "\\;");
    assert p1 == "\\;" by { assert ";"[1..] == []; }
    var p2 := ReplaceChar(p1, ',', "\\,");
    assert p2 == "\\;" by { assert p1[1..] == ";"; assert p1[1..][1..] == []; }
    var p3 := ReplaceChar(p2, '\n', "\\n");
    assert p3 == "\\;" by { assert p2[1..] == ";"; assert p2[1..][1..] == []; }
    assert ReplaceChar(p3, '\\', "\\\\") == "\\\\;" by { assert p3[1..] == ";"; assert p3[1..][1..] == []; }
    var w := "\\\\;";
    assert Unescape(w) == ['\\'] + Unescape(w[2..]);
    assert w[2..] == ";";
    UnescapeEscape(";");
  }

  // ---------------------------------------------------------------------------------------
  // VEVENT and VCALENDAR
  // ---------------------------------------------------------------------------------------

  const CRLF := "\r\n"

  /** `ev.title || 'Event'`. */
  function TitleOf(ev: ScheduleEvent): (r: string)
    ensures r != ""
    ensures ev.title.Some? && ev.title.value != "" ==> r == ev.title.value
  {
    if ev.title.None? || ev.title.value == "" then "Event" else ev.title.value
  }

  /** `if (ev.description)`: a description that is present and not empty. */
  predicate HasDescription(ev: ScheduleEvent) {
    ev.description.Some? && ev.description.value != ""
  }

  /**
   * `uid || \`event-${ev.id ?? Date.now()}-${...}\``: the given UID, or one made from the
   * event id and a random part the model takes as a parameter.
   */
  function UidOf(ev: ScheduleEvent, uid: Option<string>, randomPart: string): (r: string)
    ensures uid.Some? && uid.value != "" ==> r == uid.value
    ensures uid.None? || uid.value == "" ==> |r| > 6 && r[..6] == "event-"
  {
    if uid.Some? && uid.value != "" then uid.value else "event-" + IntToString(ev.id) + "-" + randomPart
  }

  /** The six content lines every VEVENT starts with, from the UID, the three times and the summary. */
  function VeventHead(u: string, stamp: string, start: string, end: string, summary: string): (r: seq<string>)
    ensures |r| == 6 && r[0] == "BEGIN:VEVENT" && r[5] == Line("SUMMARY", summary)
  {
    [Line("BEGIN", "VEVENT"),
     Line("UID", u + "@bass-canyon-planner"),
     Line("DTSTAMP", stamp),
     Line("DTSTART", start),
     Line("DTEND", end),
     Line("SUMMARY", summary)]
  }

  /** The optional DESCRIPTION line and `END:VEVENT`. */
  function VeventTail(ev: ScheduleEvent): (r: seq<string>)
    ensures |r| == (if HasDescription(ev) then 2 else 1) && r[|r| - 1] == "END:VEVENT"
    ensures HasDescription(ev) ==> r[0] == Line("DESCRIPTION", EscapeIcsText(ev.description.value))
  {
    EndLine();
    var end := Line("END", "VEVENT");
    if HasDescription(ev) then [Line("DESCRIPTION", EscapeIcsText(ev.description.value)), end] else [end]
  }

  lemma EndLine()
    ensures Line("END", "VEVENT") == "END:VEVENT"
  {
  }

  /** The content lines of `eventToIcsVevent`. */
  function VeventLines(ev: ScheduleEvent, uid: Option<string>, randomPart: string, clock: nat -> string): (r: seq<string>)
    ensures |r| == (if HasDescription(ev) then 8 else 7)
    ensures r[0] == "BEGIN:VEVENT" && r[|r| - 1] == "END:VEVENT"
  {
    VeventHead(UidOf(ev, uid, randomPart), UtcString(Now(0), clock), UtcString(EventStart(ev.day, ev.time), clock),
      UtcString(EventEnd(ev.day, ev.time, ev.endTime), clock), EscapeIcsText(TitleOf(ev)))
    + VeventTail(ev)
  }

  /** A content line of section 3.1 of RFC 5545 without parameters: `name:value`. */
  function Line(name: string, value: string): string {
    name + ":" + value
  }

  /** The fixed lines of the VCALENDAR header, spelled out. */
  lemma FixedHeaderLines()
    ensures Line("BEGIN", "VCALENDAR") == "BEGIN:VCALENDAR"
    ensures Line("VERSION", "2.0") == "VERSION:2.0"
    ensures Line("CALSCALE", "GREGORIAN") == "CALSCALE:GREGORIAN"
  {
  }

  /** A line built from a name and a value without a line feed has none either. */
  lemma LineKeepsNoNewline(name: string, value: string)
    requires '\n' !in name && '\n' !in value
    ensures '\n' !in Line(name, value)
  {
    var l := Line(name, value);
    forall i | 0 <= i < |l| ensures l[i] != '\n' {
      if i < |name| {
        assert l[i] == name[i];
      } else if i > |name| {
        assert l[i] == value[i - |name| - 1];
      }
    }
  }

  /** The line starts with `DESCRIPTION:`. */
  predicate IsDescriptionLine(line: string) {
    "DESCRIPTION:" <= line
  }

  lemma NotDescription(name: string, value: string)
    requires |name| >= 2 && (name[0] != 'D' || name[1] != 'E')
    ensures !IsDescriptionLine(Line(name, value))
  {
    assert Line(name, value)[0] == name[0] && Line(name, value)[1] == name[1];
  }

  lemma HeadHasNoDescription(u: string, stamp: string, start: string, end: string, summary: string)
    ensures forall i :: 0 <= i < 6 ==> !IsDescriptionLine(VeventHead(u, stamp, start, end, summary)[i])
  {
    NotDescription("BEGIN", "VEVENT");
    NotDescription("UID", u + "@bass-canyon-planner");
    NotDescription("DTSTAMP", stamp);
    NotDescription("DTSTART", start);
    NotDescription("DTEND", end);
    NotDescription("SUMMARY", summary);
  }

  /**
   * A VEVENT carries a DESCRIPTION line exactly when the event has a description; that line
   * and the SUMMARY line hold the escaped texts, which contain no line break.
   */
  lemma VeventDescription(ev: ScheduleEvent, uid: Option<string>, randomPart: string, clock: nat -> string)
    ensures var r := VeventLines(ev, uid, randomPart, clock);
      && (HasDescription(ev) <==> exists i :: 0 <= i < |r| && IsDescriptionLine(r[i]))
      && (HasDescription(ev) ==> r[6] == Line("DESCRIPTION", EscapeIcsText(ev.description.value)))
      && r[5] == Line("SUMMARY", EscapeIcsText(TitleOf(ev)))
      && '\n' !in r[5][8..]
  {
    var u, stamp, start, end := UidOf(ev, uid, randomPart), UtcString(Now(0), clock),
      UtcString(EventStart(ev.day, ev.time), clock), UtcString(EventEnd(ev.day, ev.time, ev.endTime), clock);
    var summary := EscapeIcsText(TitleOf(ev));
    var h := VeventHead(u, stamp, start, end, summary);
    var t := VeventTail(ev);
    assert VeventLines(ev, uid, randomPart, clock) == h + t;
    HeadHasNoDescription(u, stamp, start, end, summary);
    LineValue("SUMMARY", summary);
    NotDescription("END", "VEVENT");
    if HasDescription(ev) {
      DescriptionLine(EscapeIcsText(ev.description.value));
    }
    DescriptionOnlyInTail(h, t);
  }

  /** The value of a content line follows its name and the colon. */
  lemma LineValue(name: string, value: string)
    ensures Line(name, value)[|name| + 1..] == value
  {
  }

  lemma DescriptionLine(value: string)
    ensures IsDescriptionLine(Line("DESCRIPTION", value))
  {
    assert Line("DESCRIPTION", value) == "DESCRIPTION:" + value;
  }

  /** With no DESCRIPTION line in the head nor at the end, the only candidate is the tail's first line. */
  lemma DescriptionOnlyInTail(h: seq<string>, t: seq<string>)
    requires |h| == 6 && forall i :: 0 <= i < 6 ==> !IsDescriptionLine(h[i])
    requires 1 <= |t| <= 2 && !IsDescriptionLine(t[|t| - 1])
    ensures (exists i :: 0 <= i < |h + t| && IsDescriptionLine((h + t)[i])) <==> |t| == 2 && IsDescriptionLine(t[0])
  {
    if |t| == 2 && IsDescriptionLine(t[0]) {
      assert (h + t)[6] == t[0];
    }
    forall i | 0 <= i < |h + t| ensures !IsDescriptionLine((h + t)[i]) || (i == 6 && |t| == 2) {
      if i < 6 {
        assert (h + t)[i] == h[i];
      } else if i == |h + t| - 1 {
        assert (h + t)[i] == t[|t| - 1];
      }
    }
  }


  /** `v` is CRLF-separated text whose first line is `first` and whose last line is `last`. */
  predicate Framed(v: string, first: string, last: string) {
    && first + CRLF <= v
    && |CRLF + last| <= |v| && v[|v| - |CRLF + last|..] == CRLF + last
  }

  /** `eventToIcsVevent(ev, uid)`: the content lines joined by CRLF. */
  function Vevent(ev: ScheduleEvent, uid: Option<string>, randomPart: string, clock: nat -> string): (v: string)
    ensures Framed(v, "BEGIN:VEVENT", "END:VEVENT")
  {
    var lines := VeventLines(ev, uid, randomPart, clock);
    Framing(lines);
    Join(lines, CRLF)
  }

  /** Joining two or more lines by CRLF opens with the first and closes with the last. */
  lemma Framing(lines: seq<string>)
    requires |lines| >= 2
    ensures Framed(Join(lines, CRLF), lines[0], lines[|lines| - 1])
  {
    JoinEndsWith(lines, CRLF);
  }

  const DefaultCalendarName := "Bass Canyon Schedule"

  /** The VCALENDAR header lines of `eventsToIcs`. */
  function HeaderLines(calendarName: string): (r: seq<string>)
    ensures |r| == 5 && r[0] == "BEGIN:VCALENDAR" && r[1] == "VERSION:2.0" && r[4] == "CALSCALE:GREGORIAN"
    ensures '\n' !in r[3]
  {
    var name := EscapeIcsText(calendarName);
    LineKeepsNoNewline("X-WR-CALNAME", name);
    FixedHeaderLines();
    [Line("BEGIN", "VCALENDAR"), Line("VERSION", "2.0"), Line("PRODID", "-//Bass Canyon Planner//EN"),
     Line("X-WR-CALNAME", name), Line("CALSCALE", "GREGORIAN")]
  }

  /** The content lines of each event's VEVENT, in input order. */
  function EventGroups(events: seq<ScheduleEvent>, randomOf: nat -> string, clock: nat -> string): (r: seq<seq<string>>)
    ensures |r| == |events|
    ensures forall i :: 0 <= i < |events| ==> r[i] == VeventLines(events[i], None, randomOf(i), clock)
  {
    seq(|events|, i requires 0 <= i < |events| => VeventLines(events[i], None, randomOf(i), clock))
  }

  /**
   * `eventsToIcs(events, calendarName)`: the joined header, every event's VEVENT and
   * `END:VCALENDAR`, joined by CRLF. Each VEVENT gets a generated UID; its random part is
   * `randomOf(i)` for the i-th event.
   */
  function EventsToIcs(events: seq<ScheduleEvent>, calendarName: string, randomOf: nat -> string, clock: nat -> string): (r: string)
    ensures Framed(r, "BEGIN:VCALENDAR", "END:VCALENDAR")
  {
    var head := Join(HeaderLines(calendarName), CRLF);
    var vevents := seq(|events|, i requires 0 <= i < |events| => Vevent(events[i], None, randomOf(i), clock));
    Framing(HeaderLines(calendarName));
    CalendarFraming(head, vevents, "BEGIN:VCALENDAR");
    Join([head] + vevents + ["END:VCALENDAR"], CRLF)
  }

  /** The joined header, the VEVENTs and `END:VCALENDAR`: the file keeps the header's first line. */
  lemma CalendarFraming(head: string, vevents: seq<string>, first: string)
    requires first + CRLF <= head
    ensures Framed(Join([head] + vevents + ["END:VCALENDAR"], CRLF), first, "END:VCALENDAR")
  {
    var parts := [head] + vevents + ["END:VCALENDAR"];
    assert parts[0] == head && parts[|parts| - 1] == "END:VCALENDAR";
    Framing(parts);
    var r := Join(parts, CRLF);
    assert r[..|first + CRLF|] == (head + CRLF)[..|first + CRLF|] == head[..|first + CRLF|];
  }

  /**
   * The file is one CRLF-joined list of content lines: the header lines, then each event's
   * VEVENT lines in input order, then `END:VCALENDAR`.
   */
  lemma EventsToIcsLines(events: seq<ScheduleEvent>, calendarName: string, randomOf: nat -> string, clock: nat -> string)
    ensures EventsToIcs(events, calendarName, randomOf, clock) ==
      Join(HeaderLines(calendarName) + Flatten(EventGroups(events, randomOf, clock)) + ["END:VCALENDAR"], CRLF)
  {
    var body := EventGroups(events, randomOf, clock);
    var groups := [HeaderLines(calendarName)] + body + [["END:VCALENDAR"]];
    assert forall i :: 0 <= i < |groups| ==> groups[i] != [];
    JoinFlatten(groups, CRLF);
    JoinEachAppend([HeaderLines(calendarName)] + body, [["END:VCALENDAR"]], CRLF);
    JoinEachAppend([HeaderLines(calendarName)], body, CRLF);
    FlattenAppend([HeaderLines(calendarName)] + body, [["END:VCALENDAR"]]);
    FlattenAppend([HeaderLines(calendarName)], body);
    assert Flatten([["END:VCALENDAR"]]) == ["END:VCALENDAR"];
    assert Flatten([HeaderLines(calendarName)]) == HeaderLines(calendarName);
    var vevents := seq(|events|, i requires 0 <= i < |events| => Vevent(events[i], None, randomOf(i), clock));
    JoinEachOfGroups(events, randomOf, clock);
    assert JoinEach([HeaderLines(calendarName)], CRLF) == [Join(HeaderLines(calendarName), CRLF)];
    assert JoinEach([["END:VCALENDAR"]], CRLF) == ["END:VCALENDAR"];
  }

  lemma JoinEachOfGroups(events: seq<ScheduleEvent>, randomOf: nat -> string, clock: nat -> string)
    ensures JoinEach(EventGroups(events, randomOf, clock), CRLF)
      == seq(|events|, i requires 0 <= i < |events| => Vevent(events[i], None, randomOf(i), clock))
  {
    var g := EventGroups(events, randomOf, clock);
    forall i | 0 <= i < |events| ensures JoinEach(g, CRLF)[i] == Vevent(events[i], None, randomOf(i), clock) {
      JoinEachAt(g, CRLF, i);
    }
  }

  lemma {:induction false} JoinEachAt(groups: seq<seq<string>>, sep: string, i: nat)
    requires i < |groups|
    ensures JoinEach(groups, sep)[i] == Join(groups[i], sep)
  {
    if i > 0 {
      JoinEachAt(groups[1..], sep, i - 1);
    }
  }
}
