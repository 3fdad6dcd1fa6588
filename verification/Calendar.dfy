/** Civil dates, as far as the coverage period needs them. */
module Calendar {

  /** A UTC instant: a civil date and the time within the day. */
  datatype Instant = Instant(year: int, month: int, day: int, clock: int)

  datatype Coverage = Coverage(start: Instant, end: Instant)

  predicate Leap(year: int) {
    year % 4 == 0 && (year % 100 != 0 || year % 400 == 0)
  }

  function DaysInMonth(year: int, month: int): int {
    if month == 2 then (if Leap(year) then 29 else 28)
    else if month in {4, 6, 9, 11} then 30
    else 31
  }

  predicate Valid(t: Instant) {
    1 <= t.month <= 12 && 1 <= t.day <= DaysInMonth(t.year, t.month)
  }

  /** Go's AddDate(1, 0, 0): the same day next year, normalised when that day does not exist. */
  function AddYear(t: Instant): Instant {
    if t.day <= DaysInMonth(t.year + 1, t.month) then t.(year := t.year + 1)
    else Instant(t.year + 1, t.month + 1, t.day - DaysInMonth(t.year + 1, t.month), t.clock)
  }

  function DaysBeforeYear(year: int): int {
    365 * year + (year - 1) / 4 - (year - 1) / 100 + (year - 1) / 400
  }

  function DaysBeforeMonth(year: int, month: int): int
    requires 1 <= month <= 12
  {
    [0, 31, 59, 90, 120, 151, 181, 212, 243, 273, 304, 334][month - 1] + (if month > 2 && Leap(year) then 1 else 0)
  }

  /** The position of a date on the day line of the Gregorian calendar. */
  function DayNumber(t: Instant): int
    requires Valid(t)
  {
    DaysBeforeYear(t.year) + DaysBeforeMonth(t.year, t.month) + t.day
  }

  lemma YearLength(year: int)
    ensures DaysBeforeYear(year + 1) - DaysBeforeYear(year) == if Leap(year) then 366 else 365
  {
    FourthYears(year);
    Centuries(year);
    FourthCenturies(year);
    LeapNesting(year);
  }

  lemma FourthYears(y: int)
    ensures y / 4 - (y - 1) / 4 == if y % 4 == 0 then 1 else 0
  {
  }

  lemma Centuries(y: int)
    ensures y / 100 - (y - 1) / 100 == if y % 100 == 0 then 1 else 0
  {
  }

  lemma FourthCenturies(y: int)
    ensures y / 400 - (y - 1) / 400 == if y % 400 == 0 then 1 else 0
  {
  }

  lemma LeapNesting(y: int)
    ensures (y % 400 == 0 ==> y % 100 == 0) && (y % 100 == 0 ==> y % 4 == 0)
  {
    HundredsOfYears(y);
    FoursOfYears(y);
  }

  lemma HundredsOfYears(y: int)
    ensures y % 400 == 0 ==> y % 100 == 0
  {
  }

  lemma FoursOfYears(y: int)
    ensures y % 100 == 0 ==> y % 4 == 0
  {
  }

  /** The months tile the year: each ends where the next begins, and December where the next year begins. */
  lemma MonthsTileYear(year: int, month: int)
    requires 1 <= month <= 12
    ensures DaysBeforeMonth(year, 1) == 0
    ensures month < 12 ==> DaysBeforeMonth(year, month) + DaysInMonth(year, month) == DaysBeforeMonth(year, month + 1)
    ensures DaysBeforeMonth(year, 12) + DaysInMonth(year, 12) == DaysBeforeYear(year + 1) - DaysBeforeYear(year)
  {
    YearLength(year);
  }

  /** One year after a date is the same day and month of the next year at the same time of day, and 1 March after
      29 February, which exists in the years divisible by 4 but not by 100, and by 400. */
  lemma SameDayNextYear(t: Instant)
    ensures t.month in {1, 3, 5, 7, 8, 10, 12} && 1 <= t.day <= 31 ==>
      Valid(t) && AddYear(t) == Instant(t.year + 1, t.month, t.day, t.clock)
    ensures t.month in {4, 6, 9, 11} && 1 <= t.day <= 30 ==>
      Valid(t) && AddYear(t) == Instant(t.year + 1, t.month, t.day, t.clock)
    ensures t.month == 2 && 1 <= t.day <= 28 ==> Valid(t) && AddYear(t) == Instant(t.year + 1, 2, t.day, t.clock)
    ensures t.month == 2 && t.day == 29 && ((t.year % 4 == 0 && t.year % 100 != 0) || t.year % 400 == 0) ==>
      Valid(t) && AddYear(t) == Instant(t.year + 1, 3, 1, t.clock)
  {
    LeapNesting(t.year);
    NoTwoLeapYears(t.year);
  }

  lemma NoTwoLeapYears(year: int)
    ensures Leap(year) ==> !Leap(year + 1)
  {
    assert year % 4 == 0 ==> (year + 1) % 4 == 1;
  }

  lemma MonthStarts(year: int, month: int)
    requires 1 <= month <= 12
    ensures month <= 2 ==> DaysBeforeMonth(year, month) == DaysBeforeMonth(year + 1, month)
    ensures month < 12 ==> DaysBeforeMonth(year, month + 1) == DaysBeforeMonth(year, month) + DaysInMonth(year, month)
  {
  }

  /** Coverage ends at the same time of day, 365 days later, or 366 when a leap day falls in between. */
  lemma OneYearLater(t: Instant)
    requires Valid(t)
    ensures Valid(AddYear(t)) && AddYear(t).clock == t.clock
    ensures DayNumber(AddYear(t)) - DayNumber(t) ==
      if Leap(if t.month <= 2 then t.year else t.year + 1) then 366 else 365
  {
    YearLength(t.year);
    NoTwoLeapYears(t.year);
    MonthStarts(t.year, t.month);
    MonthStarts(t.year + 1, t.month);
  }
}
