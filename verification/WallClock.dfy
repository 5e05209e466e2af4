/** Finding the instant whose clock, in some time zone, shows a date and time the user typed. */
module WallClock {
  import opened Decimal
  import opened Gregorian
  import opened Options

  const MINUTE: int := 60_000
  const HOUR: int := 60 * MINUTE
  const DAY: int := 24 * HOUR

  datatype WallParts = WallParts(year: int, month: int, day: int, hour: int, minute: int)

  /** A time zone: how far local time is ahead of UTC at each instant, in milliseconds. */
  type Zone = int -> int

  ghost predicate WithinThreeDays(zone: Zone) {
    forall utcMs: int :: -3 * DAY <= zone(utcMs) <= 3 * DAY
  }

  /** The calendar of a browser counts the years before year 1 backwards and does not show the era. */
  function EraYear(year: int): int {
    if year >= 1 then year else 1 - year
  }

  /** The clock fields of a local time in milliseconds. */
  function FieldsOf(local: int): WallParts {
    var date := DateOf(local / DAY);
    var inDay := local % DAY;
    WallParts(EraYear(date.year), date.month, date.day, inDay / HOUR, inDay % HOUR / MINUTE)
  }

  /** What a zone's clock shows at each instant. */
  type Clock = int -> WallParts

  function WallClockOf(zone: Zone): Clock {
    (utcMs: int) => FieldsOf(utcMs + zone(utcMs))
  }

  predicate WholeMinute(utcMs: int) {
    utcMs % 60_000 == 0
  }

  /** The local year is 1 or later. */
  predicate InCommonEra(zone: Zone, utcMs: int) {
    DateOf((utcMs + zone(utcMs)) / DAY).year >= 1
  }

  // ---- text

  function Pad2(n: nat): string {
    if |ToDecimal(n)| < 2 then "0" + ToDecimal(n) else ToDecimal(n)
  }

  predicate IsSpace(c: char) {
    || '\t' <= c <= '\r' || c == ' ' || c == '\U{00A0}' || c == '\U{1680}' || '\U{2000}' <= c <= '\U{200A}'
    || c == '\U{2028}' || c == '\U{2029}' || c == '\U{202F}' || c == '\U{205F}' || c == '\U{3000}'
    || c == '\U{FEFF}'
  }

  function Trim(s: string): string {
    if s != "" && IsSpace(s[0]) then Trim(s[1..])
    else if s != "" && IsSpace(s[|s| - 1]) then Trim(s[..|s| - 1])
    else s
  }

  predicate LooksLikeDateTime(t: string) {
    |t| == 16 && t[4] == '-' && t[7] == '-' && t[10] == 'T' && t[13] == ':'
    && forall i :: 0 <= i < 16 && i != 4 && i != 7 && i != 10 && i != 13 ==> IsDigit(t[i])
  }

  function TwoDigits(t: string, i: nat): int
    requires i + 1 < |t| && IsDigit(t[i]) && IsDigit(t[i + 1])
  {
    10 * DigitValue(t[i]) + DigitValue(t[i + 1])
  }

  predicate InRange(parts: WallParts) {
    && 0 <= parts.year <= 9999 && 1 <= parts.month <= 12 && 1 <= parts.day <= 31
    && 0 <= parts.hour <= 23 && 0 <= parts.minute <= 59
  }

  function TypedFields(t: string): WallParts
    requires LooksLikeDateTime(t)
  {
    WallParts(100 * TwoDigits(t, 0) + TwoDigits(t, 2), TwoDigits(t, 5), TwoDigits(t, 8), TwoDigits(t, 11),
      TwoDigits(t, 14))
  }

  function ParseTrimmed(t: string): Option<WallParts> {
    if !LooksLikeDateTime(t) then None else
    var parts := TypedFields(t);
    if parts.month < 1 || parts.month > 12 || parts.day < 1 || parts.day > 31 then None
    else if parts.hour > 23 || parts.minute > 59 then None
    else Some(parts)
  }

  function ParseZonedLocalDateTimeInput(s: string): (parts: Option<WallParts>)
    ensures parts.Some? ==> InRange(parts.value)
  {
    ParseTrimmed(Trim(s))
  }

  /** The year is not padded. */
  function FormatInput(parts: WallParts): string
    requires 0 <= parts.year && 0 <= parts.month && 0 <= parts.day && 0 <= parts.hour && 0 <= parts.minute
  {
    ToDecimal(parts.year) + AfterYear(Pad2(parts.month), Pad2(parts.day), Pad2(parts.hour), Pad2(parts.minute))
  }

  function AfterYear(month: string, day: string, hour: string, minute: string): string {
    "-" + month + "-" + day + "T" + hour + ":" + minute
  }

  // ---- the search

  predicate TypedParts(parts: WallParts) {
    0 <= parts.year && 1 <= parts.month <= 12 && 0 <= parts.hour <= 23 && 0 <= parts.minute <= 59
  }

  /** `Date.UTC` reads the years 0 to 99 as 1900 to 1999. */
  function DateUtc(parts: WallParts): int
    requires TypedParts(parts)
  {
    var year := if 0 <= parts.year <= 99 then 1900 + parts.year else parts.year;
    DayOf(Date(year, parts.month, parts.day)) * DAY + parts.hour * HOUR + parts.minute * MINUTE
  }

  lemma DateUtcWholeMinute(parts: WallParts)
    requires TypedParts(parts)
    ensures WholeMinute(DateUtc(parts))
  {
  }

  lemma MinuteOf(k: int, r: int)
    requires 0 <= r < MINUTE
    ensures (MINUTE * k + r) % MINUTE == r
  {
  }

  lemma ClockArithmetic(local: int)
    ensures var inDay := local % DAY;
            && 0 <= inDay / HOUR <= 23 && 0 <= inDay % HOUR / MINUTE <= 59
            && local / DAY * DAY + inDay / HOUR * HOUR + inDay % HOUR / MINUTE * MINUTE == local - local % MINUTE
  {
    var q, inDay := local / DAY, local % DAY;
    var h, inHour := inDay / HOUR, inDay % HOUR;
    var m, inMinute := inHour / MINUTE, inHour % MINUTE;
    assert local == DAY * q + inDay && inDay == HOUR * h + inHour && inHour == MINUTE * m + inMinute;
    MinuteOf(1440 * q + 60 * h + m, inMinute);
  }

  /** Fields shown at a local time name exactly the minute that contains it. */
  lemma FieldsNameTheMinute(local: int, parts: WallParts)
    requires FieldsOf(local) == parts && DateOf(local / DAY).year >= 1 && parts.year >= 100
    ensures TypedParts(parts) && DateUtc(parts) == local - local % MINUTE
  {
    ClockArithmetic(local);
    assert DateOf(local / DAY) == Date(parts.year, parts.month, parts.day);
  }

  lemma WindowArithmetic(utcMs: int, offset: int, anchor: int)
    requires -3 * DAY <= offset <= 3 * DAY && WholeMinute(utcMs) && WholeMinute(anchor)
    requires anchor == utcMs + offset - (utcMs + offset) % MINUTE
    ensures anchor - 3 * DAY <= utcMs <= anchor + 3 * DAY
  {
  }

  lemma WindowStartsOnMinute(anchor: int)
    requires WholeMinute(anchor)
    ensures WholeMinute(anchor - 3 * DAY)
  {
  }

  /** `utcMs` is a whole minute that shows the fields, in our era. */
  ghost predicate Names(zone: Zone, parts: WallParts, utcMs: int) {
    WholeMinute(utcMs) && InCommonEra(zone, utcMs) && WallClockOf(zone)(utcMs) == parts
  }

  /** Every whole-minute instant that shows the fields lies in the window that is scanned. */
  lemma WindowIsWideEnough(zone: Zone, parts: WallParts)
    requires WithinThreeDays(zone) && TypedParts(parts) && parts.year >= 100
    ensures forall v: int :: Names(zone, parts, v) ==>
              DateUtc(parts) - 3 * DAY <= v <= DateUtc(parts) + 3 * DAY
  {
    forall v: int | Names(zone, parts, v)
      ensures DateUtc(parts) - 3 * DAY <= v <= DateUtc(parts) + 3 * DAY
    {
      NamedInWindow(zone, parts, v);
    }
  }

  lemma NamedFields(zone: Zone, parts: WallParts, v: int, local: int)
    requires Names(zone, parts, v) && local == v + zone(v)
    ensures FieldsOf(local) == parts
  {
    ShownFields(zone, v);
  }

  lemma NamedEra(zone: Zone, v: int, local: int)
    requires InCommonEra(zone, v) && local == v + zone(v)
    ensures DateOf(local / DAY).year >= 1
  {
  }

  lemma NamedMinute(zone: Zone, parts: WallParts, v: int, local: int)
    requires TypedParts(parts) && parts.year >= 100 && Names(zone, parts, v) && local == v + zone(v)
    ensures DateUtc(parts) == local - local % MINUTE
  {
    NamedFields(zone, parts, v, local);
    NamedEra(zone, v, local);
    FieldsNameTheMinute(local, parts);
  }

  lemma NamedInWindow(zone: Zone, parts: WallParts, v: int)
    requires WithinThreeDays(zone) && TypedParts(parts) && parts.year >= 100 && Names(zone, parts, v)
    ensures DateUtc(parts) - 3 * DAY <= v <= DateUtc(parts) + 3 * DAY
  {
    NamedMinute(zone, parts, v, v + zone(v));
    DateUtcWholeMinute(parts);
    WindowArithmetic(v, zone(v), DateUtc(parts));
  }

  const DAY_OF_1900: int := -25567

  lemma LateInstants(anchorDay: int, anchor: int, utcMs: int, offset: int)
    requires anchor >= anchorDay * DAY && utcMs >= anchor - 3 * DAY && offset >= -3 * DAY
    ensures (utcMs + offset) / DAY >= anchorDay - 6
  {
  }

  lemma NotBeforeItsYear(date: Date)
    requires 1 <= date.month <= 12 && 1 <= date.day
    ensures DayOf(date) >= DayFromYear(date.year)
  {
  }

  lemma EarlyYearsWindow(parts: WallParts)
    requires TypedParts(parts) && 1 <= parts.day && parts.year < 100
    ensures DateUtc(parts) >= DAY_OF_1900 * DAY
  {
    assert DayFromYear(1900) == DAY_OF_1900;
    YearsIncrease(1900, 1900 + parts.year);
    NotBeforeItsYear(Date(1900 + parts.year, parts.month, parts.day));
    NotBeforeItsDay(DayOf(Date(1900 + parts.year, parts.month, parts.day)), DAY_OF_1900, parts.hour, parts.minute);
  }

  lemma NotBeforeItsDay(day: int, first: int, hour: nat, minute: nat)
    requires day >= first
    ensures day * DAY + hour * HOUR + minute * MINUTE >= first * DAY
  {
  }

  lemma LateFields(local: int)
    requires local / DAY >= DAY_OF_1900 - 6
    ensures FieldsOf(local).year >= 100
  {
  }

  const DAY_OF_100: int := -683003

  /** From year 100 on the whole window lies in our era. */
  lemma WindowInCommonEra(zone: Zone, parts: WallParts, v: int)
    requires WithinThreeDays(zone) && TypedParts(parts) && 1 <= parts.day && parts.year >= 100
    requires DateUtc(parts) - 3 * DAY <= v
    ensures InCommonEra(zone, v)
  {
    assert DayFromYear(100) == DAY_OF_100;
    YearsIncrease(100, parts.year);
    NotBeforeItsYear(Date(parts.year, parts.month, parts.day));
    LateInstants(DAY_OF_100, DateUtc(parts), v, zone(v));
  }

  lemma LateClock(zone: Zone, anchor: int, v: int)
    requires WithinThreeDays(zone) && anchor >= DAY_OF_1900 * DAY && anchor - 3 * DAY <= v
    ensures WallClockOf(zone)(v).year >= 100
  {
    LateInstants(DAY_OF_1900, anchor, v, zone(v));
    LateFields(v + zone(v));
  }

  /** The years 0 to 99 are never found: the window then lies around 1900 to 1999. */
  lemma EarlyYearsNeverShown(zone: Zone, parts: WallParts, anchor: int)
    requires WithinThreeDays(zone) && TypedParts(parts) && 1 <= parts.day && parts.year < 100
    requires anchor == DateUtc(parts)
    ensures forall v: int :: anchor - 3 * DAY <= v ==> WallClockOf(zone)(v) != parts
  {
    EarlyYearsWindow(parts);
    forall v: int | anchor - 3 * DAY <= v ensures WallClockOf(zone)(v) != parts {
      LateClock(zone, anchor, v);
    }
  }

  ghost predicate Earliest(zone: Zone, parts: WallParts, utcMs: int) {
    Names(zone, parts, utcMs) && forall v: int :: Names(zone, parts, v) ==> utcMs <= v
  }

  ghost predicate NeverShown(zone: Zone, parts: WallParts) {
    forall v: int :: !Names(zone, parts, v)
  }

  /** Looks at each whole minute from `lo` to `hi` in turn. */
  method ScanMinutes(clock: Clock, parts: WallParts, lo: int, hi: int) returns (utc: Option<int>)
    requires WholeMinute(lo)
    ensures utc.Some? ==> lo <= utc.value <= hi && WholeMinute(utc.value) && clock(utc.value) == parts
    ensures forall v: int :: WholeMinute(v) && lo <= v <= hi && clock(v) == parts ==> utc.Some? && utc.value <= v
  {
    var utcMs := lo;
    while utcMs <= hi
      invariant WholeMinute(utcMs) && lo <= utcMs
      invariant forall v: int :: WholeMinute(v) && lo <= v < utcMs ==> clock(v) != parts
    {
      if clock(utcMs) == parts { return Some(utcMs); }
      utcMs := utcMs + MINUTE;
    }
    utc := None;
  }

  lemma ScanIsEnough(zone: Zone, parts: WallParts, lo: int, hi: int, utc: Option<int>)
    requires utc.Some? ==> Names(zone, parts, utc.value)
    requires forall v: int :: WholeMinute(v) && lo <= v <= hi && WallClockOf(zone)(v) == parts ==>
               utc.Some? && utc.value <= v
    requires forall v: int :: Names(zone, parts, v) ==> lo <= v <= hi
    ensures utc.Some? ==> Earliest(zone, parts, utc.value)
    ensures utc.None? ==> NeverShown(zone, parts)
  {
    forall v: int | Names(zone, parts, v) ensures utc.Some? && utc.value <= v {
      assert WholeMinute(v) && lo <= v <= hi && WallClockOf(zone)(v) == parts;
    }
  }

  /** From year 100 on: the earliest whole-minute instant with the typed clock reading, or
      nothing exactly when no such instant exists. For the years 0 to 99: always nothing. */
  ghost predicate SearchResult(zone: Zone, parts: WallParts, utc: Option<int>) {
    && (parts.year < 100 ==> utc.None?)
    && (utc.Some? ==> Earliest(zone, parts, utc.value))
    && (parts.year >= 100 && utc.None? ==> NeverShown(zone, parts))
  }

  method FindInstant(parts: WallParts, zone: Zone) returns (utc: Option<int>)
    requires WithinThreeDays(zone) && TypedParts(parts) && 1 <= parts.day
    ensures SearchResult(zone, parts, utc)
  {
    var anchor := DateUtc(parts);
    DateUtcWholeMinute(parts);
    WindowStartsOnMinute(anchor);
    utc := ScanMinutes(WallClockOf(zone), parts, anchor - 3 * DAY, anchor + 3 * DAY);
    if parts.year >= 100 {
      if utc.Some? { WindowInCommonEra(zone, parts, utc.value); }
      WindowIsWideEnough(zone, parts);
      ScanIsEnough(zone, parts, anchor - 3 * DAY, anchor + 3 * DAY, utc);
    } else {
      EarlyYearsNeverShown(zone, parts, anchor);
    }
  }

  method ZonedLocalDateTimeToUtc(dateTimeLocal: string, timeZone: Option<Zone>) returns (utc: Option<int>)
    requires timeZone.Some? ==> WithinThreeDays(timeZone.value)
    ensures timeZone.None? || ParseZonedLocalDateTimeInput(dateTimeLocal).None? ==> utc.None?
    ensures timeZone.Some? && ParseZonedLocalDateTimeInput(dateTimeLocal).Some? ==>
              SearchResult(timeZone.value, ParseZonedLocalDateTimeInput(dateTimeLocal).value, utc)
  {
    var parsed := ParseZonedLocalDateTimeInput(dateTimeLocal);
    if parsed.None? || timeZone.None? { return None; }
    utc := FindInstant(parsed.value, timeZone.value);
  }

  // ---- what the results mean

  /** A date that does not exist, such as 31 February, is shown nowhere. */
  lemma UnrealDatesNeverShown(zone: Zone, parts: WallParts)
    requires parts.month < 1 || parts.month > 12 || !ValidDate(Date(parts.year, parts.month, parts.day))
    ensures NeverShown(zone, parts)
  {
    forall v: int ensures !Names(zone, parts, v) {
      UnrealDateIsNotNamed(zone, parts, v);
    }
  }

  lemma ShownFields(zone: Zone, v: int)
    ensures WallClockOf(zone)(v) == FieldsOf(v + zone(v))
  {
  }

  lemma UnrealDateIsNotNamed(zone: Zone, parts: WallParts, v: int)
    requires parts.month < 1 || parts.month > 12 || !ValidDate(Date(parts.year, parts.month, parts.day))
    ensures !Names(zone, parts, v)
  {
    ShownFields(zone, v);
    if InCommonEra(zone, v) { UnrealDateIsNoReading(v + zone(v), parts); }
  }

  lemma UnrealDateIsNoReading(local: int, parts: WallParts)
    requires parts.month < 1 || parts.month > 12 || !ValidDate(Date(parts.year, parts.month, parts.day))
    requires DateOf(local / DAY).year >= 1
    ensures FieldsOf(local) != parts
  {
    var date := DateOf(local / DAY);
    assert ValidDate(date);
    assert FieldsOf(local).year == date.year && FieldsOf(local).month == date.month && FieldsOf(local).day == date.day;
  }

  const UTC: Zone := (utcMs: int) => 0

  lemma FieldsArithmetic(day: int, hour: int, minute: int)
    requires 0 <= hour <= 23 && 0 <= minute <= 59
    ensures var local := DAY * day + HOUR * hour + MINUTE * minute;
            local / DAY == day && local % DAY / HOUR == hour && local % DAY % HOUR / MINUTE == minute
            && local % MINUTE == 0
  {
  }

  lemma FieldsOfMinute(date: Date, hour: int, minute: int)
    requires date.year >= 1 && ValidDate(date) && 0 <= hour <= 23 && 0 <= minute <= 59
    ensures var local := DAY * DayOf(date) + HOUR * hour + MINUTE * minute;
            && local % MINUTE == 0 && DateOf(local / DAY).year >= 1
            && FieldsOf(local) == WallParts(date.year, date.month, date.day, hour, minute)
  {
    FieldsArithmetic(DayOf(date), hour, minute);
    DateOfDayOf(date);
  }

  lemma NamedInUtc(utcMs: int, parts: WallParts)
    requires WholeMinute(utcMs) && DateOf(utcMs / DAY).year >= 1 && FieldsOf(utcMs) == parts
    ensures Names(UTC, parts, utcMs)
  {
    assert utcMs + UTC(utcMs) == utcMs;
  }

  /** Every real date and time is shown somewhere in UTC, from year 1 on. */
  lemma RealDatesAreShownInUtc(parts: WallParts) returns (utcMs: int)
    requires TypedParts(parts) && parts.year >= 1 && ValidDate(Date(parts.year, parts.month, parts.day))
    ensures Names(UTC, parts, utcMs)
  {
    var date := Date(parts.year, parts.month, parts.day);
    utcMs := DAY * DayOf(date) + HOUR * parts.hour + MINUTE * parts.minute;
    FieldsOfMinute(date, parts.hour, parts.minute);
    NamedInUtc(utcMs, parts);
  }

  /** There is no year 0. */
  lemma YearZeroNeverShown(zone: Zone, parts: WallParts)
    requires parts.year == 0
    ensures NeverShown(zone, parts)
  {
    forall v: int ensures !Names(zone, parts, v) {
      ShownFields(zone, v);
      YearIsNotZero(v + zone(v));
    }
  }

  lemma YearIsNotZero(local: int)
    ensures FieldsOf(local).year != 0
  {
  }

  /** So the answer "no such instant" is wrong in UTC exactly for the real dates of the years
      1 to 99; for every other typed text the answer is right. */
  lemma NothingIsWrongExactlyForEarlyYears(parts: WallParts, utc: Option<int>)
    requires TypedParts(parts) && 1 <= parts.day && SearchResult(UTC, parts, utc)
    ensures (utc.None? <==> NeverShown(UTC, parts))
            <==> !(1 <= parts.year < 100 && ValidDate(Date(parts.year, parts.month, parts.day)))
  {
    if parts.year == 0 {
      YearZeroNeverShown(UTC, parts);
    } else if ValidDate(Date(parts.year, parts.month, parts.day)) {
      var shown := RealDatesAreShownInUtc(parts);
    } else {
      UnrealDatesNeverShown(UTC, parts);
    }
  }

  lemma PairRoundTrip(t: string, i: nat)
    requires i + 1 < |t| && IsDigit(t[i]) && IsDigit(t[i + 1])
    ensures 0 <= TwoDigits(t, i) <= 99 && Pad2(TwoDigits(t, i)) == [t[i], t[i + 1]]
  {
    DigitRoundTrip(t[i]);
    DigitRoundTrip(t[i + 1]);
    var n := TwoDigits(t, i);
    assert n / 10 == DigitValue(t[i]) && n % 10 == DigitValue(t[i + 1]);
    if n >= 10 { assert ToDecimal(n) == ToDecimal(n / 10) + [DigitChar(n % 10)]; }
  }

  lemma YearRoundTrip(t: string)
    requires LooksLikeDateTime(t)
    ensures var year := 100 * TwoDigits(t, 0) + TwoDigits(t, 2);
            && 0 <= year <= 9999
            && (year >= 1000 ==> ToDecimal(year) == [t[0], t[1], t[2], t[3]])
            && (year < 1000 ==> |ToDecimal(year)| <= 3)
  {
    DigitRoundTrip(t[0]); DigitRoundTrip(t[1]); DigitRoundTrip(t[2]); DigitRoundTrip(t[3]);
    var a, b, c, d := DigitValue(t[0]), DigitValue(t[1]), DigitValue(t[2]), DigitValue(t[3]);
    var year := 1000 * a + 100 * b + 10 * c + d;
    assert year == 100 * TwoDigits(t, 0) + TwoDigits(t, 2);
    assert year / 10 == 100 * a + 10 * b + c && year % 10 == d;
    assert (100 * a + 10 * b + c) / 10 == 10 * a + b && (100 * a + 10 * b + c) % 10 == c;
    assert (10 * a + b) / 10 == a && (10 * a + b) % 10 == b;
    YearDigits(year, 100 * a + 10 * b + c, 10 * a + b, a);
  }

  lemma YearDigits(year: nat, tens: nat, hundreds: nat, thousands: nat)
    requires year / 10 == tens && tens / 10 == hundreds && hundreds / 10 == thousands && thousands <= 9
    ensures year >= 1000 ==>
              ToDecimal(year) == [DigitChar(thousands), DigitChar(hundreds % 10), DigitChar(tens % 10),
                DigitChar(year % 10)]
    ensures year < 1000 ==> |ToDecimal(year)| <= 3
  {
    if year >= 1000 {
      assert ToDecimal(thousands) == [DigitChar(thousands)];
      assert ToDecimal(hundreds) == [DigitChar(thousands)] + [DigitChar(hundreds % 10)];
      assert ToDecimal(tens) == ToDecimal(hundreds) + [DigitChar(tens % 10)];
      assert ToDecimal(year) == ToDecimal(tens) + [DigitChar(year % 10)];
    } else {
      assert hundreds < 10;
      assert |ToDecimal(hundreds)| == 1;
      assert |ToDecimal(tens)| <= 2;
    }
  }

  function TypedAfterYear(t: string): string
    requires LooksLikeDateTime(t)
  {
    AfterYear([t[5], t[6]], [t[8], t[9]], [t[11], t[12]], [t[14], t[15]])
  }

  lemma TextParts(t: string)
    requires LooksLikeDateTime(t)
    ensures [t[0], t[1], t[2], t[3]] + TypedAfterYear(t) == t && |TypedAfterYear(t)| == 12
  {
  }

  lemma FormatOfTyped(t: string, parts: WallParts)
    requires LooksLikeDateTime(t) && parts == TypedFields(t)
    requires parts.year >= 0 && parts.month >= 0 && parts.day >= 0 && parts.hour >= 0 && parts.minute >= 0
    ensures FormatInput(parts) == ToDecimal(parts.year) + TypedAfterYear(t)
  {
    PairRoundTrip(t, 5); PairRoundTrip(t, 8); PairRoundTrip(t, 11); PairRoundTrip(t, 14);
  }

  // ---- which texts are accepted

  function FourDigits(n: int): string
    requires 0 <= n <= 9999
  {
    var tens := n / 10;
    var hundreds := tens / 10;
    [DigitChar(hundreds / 10), DigitChar(hundreds % 10), DigitChar(tens % 10), DigitChar(n % 10)]
  }

  /** The text `YYYY-MM-DDTHH:mm` of the fields. */
  function InputText(parts: WallParts): string
    requires InRange(parts)
  {
    FourDigits(parts.year) + AfterYear(Pad2(parts.month), Pad2(parts.day), Pad2(parts.hour), Pad2(parts.minute))
  }

  lemma PadIsTwoDigits(n: nat)
    requires n <= 99
    ensures Pad2(n) == [DigitChar(n / 10), DigitChar(n % 10)]
    ensures IsDigit(Pad2(n)[0]) && IsDigit(Pad2(n)[1]) && 10 * DigitValue(Pad2(n)[0]) + DigitValue(Pad2(n)[1]) == n
  {
    DigitCharIsDigit(n / 10);
    DigitCharIsDigit(n % 10);
    if n >= 10 { assert ToDecimal(n) == ToDecimal(n / 10) + [DigitChar(n % 10)]; }
  }

  lemma SplitTen(n: nat)
    ensures n == 10 * (n / 10) + n % 10 && 0 <= n % 10 <= 9
  {
  }

  lemma YearIsFourDigits(n: int)
    requires 0 <= n <= 9999
    ensures var y := FourDigits(n);
            && |y| == 4 && IsDigit(y[0]) && IsDigit(y[1]) && IsDigit(y[2]) && IsDigit(y[3])
            && 1000 * DigitValue(y[0]) + 100 * DigitValue(y[1]) + 10 * DigitValue(y[2]) + DigitValue(y[3]) == n
  {
    var tens := n / 10;
    var hundreds := tens / 10;
    SplitTen(n);
    SplitTen(tens);
    SplitTen(hundreds);
    DigitCharIsDigit(hundreds / 10); DigitCharIsDigit(hundreds % 10);
    DigitCharIsDigit(tens % 10); DigitCharIsDigit(n % 10);
  }

  lemma LastDigit(q: nat, r: nat)
    requires r <= 9
    ensures (10 * q + r) / 10 == q && (10 * q + r) % 10 == r
  {
  }

  lemma PartsOfSum(n: nat, tens: nat, hundreds: nat, a: nat, b: nat, c: nat, d: nat)
    requires a <= 9 && b <= 9 && c <= 9 && d <= 9
    requires n == 10 * tens + d && tens == 10 * hundreds + c && hundreds == 10 * a + b
    ensures n <= 9999 && n / 10 == tens && n % 10 == d && tens / 10 == hundreds && tens % 10 == c
    ensures hundreds / 10 == a && hundreds % 10 == b
  {
    LastDigit(tens, d);
    LastDigit(hundreds, c);
    LastDigit(a, b);
  }

  lemma DigitsOfSum(n: nat, tens: nat, hundreds: nat, a: nat, b: nat, c: nat, d: nat)
    requires a <= 9 && b <= 9 && c <= 9 && d <= 9
    requires n <= 9999 && n / 10 == tens && n % 10 == d && tens / 10 == hundreds && tens % 10 == c
    requires hundreds / 10 == a && hundreds % 10 == b
    ensures FourDigits(n) == [DigitChar(a), DigitChar(b), DigitChar(c), DigitChar(d)]
  {
  }

  lemma TypedYear(t: string)
    requires LooksLikeDateTime(t)
    ensures var a, b, c, d := DigitValue(t[0]), DigitValue(t[1]), DigitValue(t[2]), DigitValue(t[3]);
            && 0 <= a <= 9 && 0 <= b <= 9 && 0 <= c <= 9 && 0 <= d <= 9
            && TypedFields(t).year == 10 * (10 * (10 * a + b) + c) + d
  {
  }

  lemma DigitsAreTyped(t: string, a: int, b: int, c: int, d: int)
    requires LooksLikeDateTime(t)
    requires a == DigitValue(t[0]) && b == DigitValue(t[1]) && c == DigitValue(t[2]) && d == DigitValue(t[3])
    ensures 0 <= a <= 9 && 0 <= b <= 9 && 0 <= c <= 9 && 0 <= d <= 9
    ensures [DigitChar(a), DigitChar(b), DigitChar(c), DigitChar(d)] == [t[0], t[1], t[2], t[3]]
  {
    DigitRoundTrip(t[0]); DigitRoundTrip(t[1]); DigitRoundTrip(t[2]); DigitRoundTrip(t[3]);
  }

  lemma TypedYearText(t: string, year: int)
    requires LooksLikeDateTime(t) && year == TypedFields(t).year
    ensures 0 <= year <= 9999 && FourDigits(year) == [t[0], t[1], t[2], t[3]]
  {
    var a, b, c, d := DigitValue(t[0]), DigitValue(t[1]), DigitValue(t[2]), DigitValue(t[3]);
    TypedYear(t);
    PartsOfSum(year, 10 * (10 * a + b) + c, 10 * a + b, a, b, c, d);
    DigitsOfSum(year, 10 * (10 * a + b) + c, 10 * a + b, a, b, c, d);
    DigitsAreTyped(t, a, b, c, d);
  }

  /** The text of fields that are given by their digits. */
  lemma TextOfDigits(y: string, month: string, day: string, hour: string, minute: string)
    requires |y| == 4 && |month| == 2 && |day| == 2 && |hour| == 2 && |minute| == 2
    requires AllDigits(y + month + day + hour + minute)
    ensures var t := y + AfterYear(month, day, hour, minute);
            && LooksLikeDateTime(t)
            && t[0] == y[0] && t[1] == y[1] && t[2] == y[2] && t[3] == y[3]
            && t[5] == month[0] && t[6] == month[1] && t[8] == day[0] && t[9] == day[1]
            && t[11] == hour[0] && t[12] == hour[1] && t[14] == minute[0] && t[15] == minute[1]
  {
    var all := y + month + day + hour + minute;
    assert all[0] == y[0] && all[1] == y[1] && all[2] == y[2] && all[3] == y[3];
    assert all[4] == month[0] && all[5] == month[1] && all[6] == day[0] && all[7] == day[1];
    assert all[8] == hour[0] && all[9] == hour[1] && all[10] == minute[0] && all[11] == minute[1];
  }

  lemma AllDigitsOf(y: string, month: string, day: string, hour: string, minute: string)
    requires AllDigits(y) && AllDigits(month) && AllDigits(day) && AllDigits(hour) && AllDigits(minute)
    ensures AllDigits(y + month + day + hour + minute)
  {
  }

  lemma FieldsFromDigits(t: string, parts: WallParts)
    requires InRange(parts) && LooksLikeDateTime(t)
    requires 1000 * DigitValue(t[0]) + 100 * DigitValue(t[1]) + 10 * DigitValue(t[2]) + DigitValue(t[3]) == parts.year
    requires 10 * DigitValue(t[5]) + DigitValue(t[6]) == parts.month
             && 10 * DigitValue(t[8]) + DigitValue(t[9]) == parts.day
    requires 10 * DigitValue(t[11]) + DigitValue(t[12]) == parts.hour
    requires 10 * DigitValue(t[14]) + DigitValue(t[15]) == parts.minute
    ensures TypedFields(t) == parts
  {
  }

  lemma InputTextParses(parts: WallParts)
    requires InRange(parts)
    ensures LooksLikeDateTime(InputText(parts)) && TypedFields(InputText(parts)) == parts
  {
    var y, month, day := FourDigits(parts.year), Pad2(parts.month), Pad2(parts.day);
    var hour, minute := Pad2(parts.hour), Pad2(parts.minute);
    YearIsFourDigits(parts.year);
    PadIsTwoDigits(parts.month); PadIsTwoDigits(parts.day); PadIsTwoDigits(parts.hour); PadIsTwoDigits(parts.minute);
    AllDigitsOf(y, month, day, hour, minute);
    TextOfDigits(y, month, day, hour, minute);
    FieldsFromDigits(InputText(parts), parts);
  }

  lemma InputTextOf(parts: WallParts, y: string, month: string, day: string, hour: string, minute: string)
    requires InRange(parts) && FourDigits(parts.year) == y && Pad2(parts.month) == month && Pad2(parts.day) == day
    requires Pad2(parts.hour) == hour && Pad2(parts.minute) == minute
    ensures InputText(parts) == y + AfterYear(month, day, hour, minute)
  {
  }

  lemma TypedPairs(t: string)
    requires LooksLikeDateTime(t) && InRange(TypedFields(t))
    ensures var parts := TypedFields(t);
            && Pad2(parts.month) == [t[5], t[6]] && Pad2(parts.day) == [t[8], t[9]]
            && Pad2(parts.hour) == [t[11], t[12]] && Pad2(parts.minute) == [t[14], t[15]]
  {
    PairRoundTrip(t, 5); PairRoundTrip(t, 8); PairRoundTrip(t, 11); PairRoundTrip(t, 14);
  }

  lemma TypedTextOfFields(t: string)
    requires LooksLikeDateTime(t) && InRange(TypedFields(t))
    ensures InputText(TypedFields(t)) == t
  {
    TypedYearText(t, TypedFields(t).year);
    TypedPairs(t);
    InputTextOf(TypedFields(t), [t[0], t[1], t[2], t[3]], [t[5], t[6]], [t[8], t[9]], [t[11], t[12]], [t[14], t[15]]);
    TextParts(t);
  }

  lemma TrimmedParsesExactly(t: string, parts: WallParts)
    ensures ParseTrimmed(t) == Some(parts) <==> InRange(parts) && t == InputText(parts)
  {
    if ParseTrimmed(t) == Some(parts) {
      YearRoundTrip(t);
      PairRoundTrip(t, 11); PairRoundTrip(t, 14);
      TypedTextOfFields(t);
    } else if InRange(parts) && t == InputText(parts) {
      InputTextParses(parts);
    }
  }

  /** The white space and line ends of ECMAScript. */
  ghost predicate AllSpace(s: string) {
    forall i :: 0 <= i < |s| ==>
      var c := s[i] as int;
      9 <= c <= 13 || c in {32, 160, 5760, 8232, 8233, 8239, 8287, 12288, 65279} || 8192 <= c <= 8202
  }

  ghost predicate IsPadded(s: string, text: string) {
    exists before, after :: IsPaddedBy(s, before, text, after)
  }

  ghost predicate IsPaddedBy(s: string, before: string, text: string, after: string) {
    s == before + text + after && AllSpace(before) && AllSpace(after)
  }

  lemma {:induction false} TrimRemovesSpace(s: string) returns (before: string, after: string)
    ensures IsPaddedBy(s, before, Trim(s), after)
    decreases |s|
  {
    if s != "" && IsSpace(s[0]) {
      before, after := TrimRemovesSpace(s[1..]);
      MorePadding(s[1..], before, Trim(s), after, s[0]);
      assert s == [s[0]] + s[1..];
      before := [s[0]] + before;
    } else if s != "" && IsSpace(s[|s| - 1]) {
      before, after := TrimRemovesSpace(s[..|s| - 1]);
      MorePadding(s[..|s| - 1], before, Trim(s), after, s[|s| - 1]);
      assert s == s[..|s| - 1] + [s[|s| - 1]];
      after := after + [s[|s| - 1]];
    } else {
      before, after := "", "";
      assert s == "" + s + "";
    }
  }

  lemma MorePadding(s: string, before: string, text: string, after: string, c: char)
    requires IsPaddedBy(s, before, text, after) && IsSpace(c)
    ensures IsPaddedBy([c] + s, [c] + before, text, after) && IsPaddedBy(s + [c], before, text, after + [c])
  {
    assert [c] + (before + text + after) == ([c] + before) + text + after;
    assert before + text + after + [c] == before + text + (after + [c]);
  }

  lemma {:induction false} TrimDropsFront(before: string, rest: string)
    requires AllSpace(before)
    ensures Trim(before + rest) == Trim(rest)
    decreases |before|
  {
    if before == "" {
      assert before + rest == rest;
    } else {
      assert IsSpace(before[0]) && (before + rest)[1..] == before[1..] + rest;
      TrimDropsFront(before[1..], rest);
    }
  }

  lemma {:induction false} TrimDropsEnd(text: string, after: string)
    requires AllSpace(after) && text != "" && !IsSpace(text[0]) && !IsSpace(text[|text| - 1])
    ensures Trim(text + after) == text
    decreases |after|
  {
    if after == "" {
      assert text + after == text;
    } else {
      var s := text + after;
      assert s[0] == text[0] && IsSpace(s[|s| - 1]) && s[..|s| - 1] == text + after[..|after| - 1];
      TrimDropsEnd(text, after[..|after| - 1]);
    }
  }

  lemma PaddedExactly(s: string, text: string)
    requires text != "" && !IsSpace(text[0]) && !IsSpace(text[|text| - 1])
    ensures IsPadded(s, text) <==> Trim(s) == text
  {
    var front, end := TrimRemovesSpace(s);
    assert IsPaddedBy(s, front, Trim(s), end);
    if before, after :| IsPaddedBy(s, before, text, after) {
      assert s == before + (text + after);
      TrimDropsFront(before, text + after);
      TrimDropsEnd(text, after);
    }
  }

  /** What is accepted is exactly the text of fields in their ranges, white space around it. */
  lemma ParsedExactlyFromItsText(s: string, parts: WallParts)
    ensures ParseZonedLocalDateTimeInput(s) == Some(parts) <==> InRange(parts) && IsPadded(s, InputText(parts))
  {
    TrimmedParsesExactly(Trim(s), parts);
    if InRange(parts) {
      InputTextIsDigits(parts);
      PaddedExactly(s, InputText(parts));
    }
  }

  lemma InputTextIsDigits(parts: WallParts)
    requires InRange(parts)
    ensures var text := InputText(parts); text != "" && !IsSpace(text[0]) && !IsSpace(text[|text| - 1])
  {
    TrimmedParsesExactly(InputText(parts), parts);
  }

  /** Formatting the clock at the found instant gives the typed text back exactly from year
      1000 on; before that the year comes out with fewer than four digits. */
  lemma FormattingGivesBackInput(dateTimeLocal: string, clock: Clock, utcMs: int)
    requires ParseZonedLocalDateTimeInput(dateTimeLocal) == Some(clock(utcMs))
    ensures FormatInput(clock(utcMs)) == Trim(dateTimeLocal) <==> clock(utcMs).year >= 1000
  {
    var t, parts := Trim(dateTimeLocal), clock(utcMs);
    YearRoundTrip(t);
    FormatOfTyped(t, parts);
    TextParts(t);
    if parts.year < 1000 {
      assert |ToDecimal(parts.year) + TypedAfterYear(t)| < |t|;
    }
  }
}
