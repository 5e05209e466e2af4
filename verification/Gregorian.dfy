/** The proleptic Gregorian calendar, as section 21.4.1 of ECMA-262 defines it. */
module Gregorian {

  datatype Date = Date(year: int, month: int, day: int)

  predicate Leap(y: int) {
    y % 4 == 0 && (y % 100 != 0 || y % 400 == 0)
  }

  function YearLength(y: int): int {
    if Leap(y) then 366 else 365
  }

  /** Days from 1 January 1970 to 1 January of year `y`; `/` rounds down here. */
  function DayFromYear(y: int): int {
    365 * (y - 1970) + (y - 1969) / 4 - (y - 1901) / 100 + (y - 1601) / 400
  }

  /** Days before the first of a month; month 13 is the end of the year. */
  function MonthStart(month: int, leap: bool): int
    requires 1 <= month <= 13
  {
    var extra := if leap then 1 else 0;
    match month
    case 1 => 0
    case 2 => 31
    case 3 => 59 + extra
    case 4 => 90 + extra
    case 5 => 120 + extra
    case 6 => 151 + extra
    case 7 => 181 + extra
    case 8 => 212 + extra
    case 9 => 243 + extra
    case 10 => 273 + extra
    case 11 => 304 + extra
    case 12 => 334 + extra
    case _ => 365 + extra
  }

  predicate ValidDate(date: Date) {
    1 <= date.month <= 12
    && 1 <= date.day <= MonthStart(date.month + 1, Leap(date.year)) - MonthStart(date.month, Leap(date.year))
  }

  /** The day number of a date; a day past the end of the month runs into the next one. */
  function DayOf(date: Date): int
    requires 1 <= date.month <= 12
  {
    DayFromYear(date.year) + MonthStart(date.month, Leap(date.year)) + date.day - 1
  }

  lemma FourthYears(y: int)
    ensures (y - 1968) / 4 == (y - 1969) / 4 + if y % 4 == 0 then 1 else 0
  {
  }

  lemma HundredthYears(y: int)
    ensures (y - 1900) / 100 == (y - 1901) / 100 + if y % 100 == 0 then 1 else 0
  {
  }

  lemma FourHundredthYears(y: int)
    ensures (y - 1600) / 400 == (y - 1601) / 400 + if y % 400 == 0 then 1 else 0
  {
  }

  lemma HundredthsAreFourths(y: int)
    ensures y % 100 == 0 ==> y % 4 == 0
  {
  }

  lemma FourHundredthsAreHundredths(y: int)
    ensures y % 400 == 0 ==> y % 100 == 0
  {
  }

  lemma YearsAreConsecutive(y: int)
    ensures DayFromYear(y + 1) == DayFromYear(y) + YearLength(y)
  {
    FourthYears(y);
    HundredthYears(y);
    FourHundredthYears(y);
    HundredthsAreFourths(y);
    FourHundredthsAreHundredths(y);
    assert y + 1 - 1969 == y - 1968 && y + 1 - 1901 == y - 1900 && y + 1 - 1601 == y - 1600;
  }

  lemma {:induction false} YearsIncrease(y: int, z: int)
    requires y <= z
    ensures DayFromYear(y) + 365 * (z - y) <= DayFromYear(z)
    decreases z - y
  {
    if y < z {
      YearsIncrease(y, z - 1);
      YearsAreConsecutive(z - 1);
    }
  }

  lemma NextYearIsLater(y: int)
    ensures DayFromYear(y) < DayFromYear(y + 1)
  {
    YearsAreConsecutive(y);
  }

  /** How many days `d` is from the year `y`. */
  function Distance(y: int, d: int): nat {
    if d < DayFromYear(y) then DayFromYear(y) - d
    else if d >= DayFromYear(y + 1) then d - DayFromYear(y + 1) + 1 else 0
  }

  lemma DistanceShrinks(y: int, d: int)
    ensures d < DayFromYear(y) ==> Distance(y - 1, d) < Distance(y, d)
    ensures d >= DayFromYear(y + 1) ==> Distance(y + 1, d) < Distance(y, d)
  {
    NextYearIsLater(y - 1);
    NextYearIsLater(y);
    NextYearIsLater(y + 1);
  }

  /** The year that contains day `d`, looked for from year `y`. */
  function YearFrom(y: int, d: int): (year: int)
    ensures DayFromYear(year) <= d < DayFromYear(year + 1)
    decreases Distance(y, d)
  {
    DistanceShrinks(y, d);
    if d < DayFromYear(y) then YearFrom(y - 1, d) else if d >= DayFromYear(y + 1) then YearFrom(y + 1, d) else y
  }

  /** The month from `m` on that contains a day of the year. */
  function MonthFrom(m: int, dayInYear: int, leap: bool): (month: int)
    requires 1 <= m <= 12 && MonthStart(m, leap) <= dayInYear < MonthStart(13, leap)
    ensures 1 <= month <= 12 && MonthStart(month, leap) <= dayInYear < MonthStart(month + 1, leap)
    decreases 12 - m
  {
    if dayInYear < MonthStart(m + 1, leap) then m else MonthFrom(m + 1, dayInYear, leap)
  }

  function DateInYear(year: int, inYear: int): (date: Date)
    requires 0 <= inYear < YearLength(year)
    ensures ValidDate(date) && date.year == year && MonthStart(date.month, Leap(year)) + date.day - 1 == inYear
  {
    var month := MonthFrom(1, inYear, Leap(year));
    Date(year, month, inYear - MonthStart(month, Leap(year)) + 1)
  }

  /** The date of a day: always a real one, and the one whose day number it is. */
  function DateOf(d: int): (date: Date)
    ensures ValidDate(date) && DayOf(date) == d
  {
    var year := YearFrom(1970, d);
    YearsAreConsecutive(year);
    DateInYear(year, d - DayFromYear(year))
  }

  lemma MonthsIncrease(m: int, n: int, leap: bool)
    requires 1 <= m < n <= 13
    ensures MonthStart(m + 1, leap) <= MonthStart(n, leap)
  {
  }

  lemma DayInYear(date: Date)
    requires ValidDate(date)
    ensures DayFromYear(date.year) <= DayOf(date) < DayFromYear(date.year + 1)
  {
    YearsAreConsecutive(date.year);
    MonthsIncrease(date.month, 13, Leap(date.year));
  }

  lemma LaterYearsStartLater(y: int, z: int, d: int)
    requires d < DayFromYear(y + 1) && DayFromYear(z) <= d
    ensures z <= y
  {
    if y < z { YearsIncrease(y + 1, z); }
  }

  lemma DayNumberFixesYear(a: Date, b: Date)
    requires ValidDate(a) && ValidDate(b) && DayOf(a) == DayOf(b)
    ensures a.year >= b.year
  {
    DayInYear(a);
    DayInYear(b);
    LaterYearsStartLater(a.year, b.year, DayOf(a));
  }

  /** Two real dates with one day number are the same date. */
  lemma DayNumbersAreUnique(a: Date, b: Date)
    requires ValidDate(a) && ValidDate(b) && DayOf(a) == DayOf(b)
    ensures a == b
  {
    DayNumberFixesYear(a, b);
    DayNumberFixesYear(b, a);
    if a.month < b.month {
      MonthsIncrease(a.month, b.month, Leap(a.year));
    } else if b.month < a.month {
      MonthsIncrease(b.month, a.month, Leap(a.year));
    }
  }

  /** Day numbers and real dates invert each other. */
  lemma DateOfDayOf(date: Date)
    requires ValidDate(date)
    ensures DateOf(DayOf(date)) == date
  {
    DayNumbersAreUnique(DateOf(DayOf(date)), date);
  }
}
