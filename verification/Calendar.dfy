/** The proleptic Gregorian calendar on a plain civil clock: instants are milliseconds since
    1 January 1970, days have 24 hours, and months are counted through as 12 * year + month. */
module Calendar {
  const MS_PER_DAY := 86_400_000

  predicate IsLeap(year: int) {
    year % 4 == 0 && (year % 100 != 0 || year % 400 == 0)
  }

  /** Leap years from 1 up to and including `year`, counted downwards before that. */
  function LeapsThrough(year: int): int {
    year / 4 - year / 100 + year / 400
  }

  /** The day number of 1 January. */
  function YearStart(year: int): int {
    365 * (year - 1970) + LeapsThrough(year - 1) - LeapsThrough(1969)
  }

  const DAYS_BEFORE: seq<int> := [0, 31, 59, 90, 120, 151, 181, 212, 243, 273, 304, 334]

  /** The day number of the first day of a month. */
  function MonthStart(month: int): int {
    YearStart(month / 12) + DAYS_BEFORE[month % 12] + (if month % 12 >= 2 && IsLeap(month / 12) then 1 else 0)
  }

  function MonthLength(month: int): int {
    MonthStart(month + 1) - MonthStart(month)
  }

  lemma YearLength(year: int)
    ensures YearStart(year + 1) - YearStart(year) == if IsLeap(year) then 366 else 365
  {
    StepsAtMultiples(year, 4);
    StepsAtMultiples(year, 100);
    StepsAtMultiples(year, 400);
    Multiples(year);
  }

  /** What 400 divides 100 divides, and what 100 divides 4 does. */
  lemma Multiples(n: int)
    ensures n % 400 == 0 ==> n % 100 == 0
    ensures n % 100 == 0 ==> n % 4 == 0
  {
    if n % 400 == 0 {
      Hundredfold(4 * (n / 400));
    }
    if n % 100 == 0 {
      Fourfold(25 * (n / 100));
    }
  }

  lemma Hundredfold(k: int)
    ensures (100 * k) % 100 == 0
  {}

  lemma Fourfold(k: int)
    ensures (4 * k) % 4 == 0
  {}

  lemma StepsAtMultiples(n: int, d: int)
    requires d in {4, 100, 400}
    ensures n / d - (n - 1) / d == if n % d == 0 then 1 else 0
  {}

  /** Thirty days hath September, April, June and November. */
  lemma MonthLengths(month: int)
    ensures var m, y := month % 12, month / 12;
      MonthLength(month) == if m == 1 then (if IsLeap(y) then 29 else 28) else if m in {3, 5, 8, 10} then 30 else 31
  {
    YearLength(month / 12);
    hide YearStart, IsLeap;
    var m, y := month % 12, month / 12;
    if m == 11 {
      assert (month + 1) / 12 == y + 1 && (month + 1) % 12 == 0;
    } else {
      assert (month + 1) / 12 == y && (month + 1) % 12 == m + 1;
    }
  }

  lemma MonthLengthBounds(month: int)
    ensures 28 <= MonthLength(month) <= 31
  {
    MonthLengths(month);
  }

  lemma MonthsGrow(month: int)
    ensures MonthStart(month) + 28 <= MonthStart(month + 1)
  {
    MonthLengthBounds(month);
    hide MonthStart;
  }

  /** The month a day lies in, looked for from a given month. */
  function MonthFrom(day: int, month: int): (found: int)
    ensures MonthStart(found) <= day < MonthStart(found + 1)
    decreases if day < MonthStart(month) then 1 else 0,
              if day < MonthStart(month) then MonthStart(month) - day else day - MonthStart(month)
  {
    hide MonthStart;
    MonthsGrow(month);
    MonthsGrow(month - 1);
    if day < MonthStart(month) then MonthFrom(day, month - 1)
    else if MonthStart(month + 1) <= day then MonthFrom(day, month + 1)
    else month
  }

  function MonthOf(day: int): (month: int)
    ensures MonthStart(month) <= day < MonthStart(month + 1)
  {
    hide MonthStart;
    MonthFrom(day, 12 * 1970)
  }

  /** The day of the month, from 1. */
  function DateOf(day: int): (date: int)
    ensures 1 <= date <= MonthLength(MonthOf(day))
  {
    day - MonthStart(MonthOf(day)) + 1
  }

  /** Sunday is 0; 1 January 1970 was a Thursday. */
  function WeekdayOf(day: int): (weekday: int)
    ensures 0 <= weekday < 7
  {
    (day + 4) % 7
  }

  lemma {:induction false} MonthStartsGrow(a: int, b: int)
    requires a <= b
    ensures MonthStart(a) + 28 * (b - a) <= MonthStart(b)
    decreases b - a
  {
    hide MonthStart;
    if a < b {
      MonthsGrow(b - 1);
      MonthStartsGrow(a, b - 1);
    }
  }

  /** A day lies in one month only. */
  lemma MonthIsUnique(day: int, month: int)
    requires MonthStart(month) <= day < MonthStart(month + 1)
    ensures MonthOf(day) == month
  {
    var found := MonthOf(day);
    hide MonthOf, MonthStart;
    if found < month {
      MonthStartsGrow(found + 1, month);
    } else if month < found {
      MonthStartsGrow(month + 1, found);
    }
  }

  /** The calendar repeats after 400 years, which are a whole number of weeks. */
  lemma FourHundredYears(month: int)
    ensures MonthStart(month + 12 * 400) == MonthStart(month) + 146097
    ensures 146097 % 7 == 0
  {
    var y := month / 12;
    assert (month + 4800) / 12 == y + 400 && (month + 4800) % 12 == month % 12;
    FourHundredMore(y);
    hide YearStart, IsLeap;
  }

  lemma FourHundredMore(year: int)
    ensures YearStart(year + 400) == YearStart(year) + 146097
    ensures IsLeap(year + 400) == IsLeap(year)
  {
    Shift(year - 1, 4, 100);
    Shift(year - 1, 100, 4);
    Shift(year - 1, 400, 1);
    Shift(year, 4, 100);
    Shift(year, 100, 4);
    Shift(year, 400, 1);
  }

  lemma Shift(n: int, d: int, times: int)
    requires (d, times) in {(4, 100), (100, 4), (400, 1)}
    ensures (n + 400) / d == n / d + times && (n + 400) % d == n % d
  {}

  /** Two dates to hold on to: the clock starts on a Thursday, and 29 February 2000 was a Tuesday. */
  lemma KnownDates()
    ensures MonthStart(12 * 1970) == 0 && WeekdayOf(0) == 4
    ensures MonthOf(11016) == 12 * 2000 + 1 && DateOf(11016) == 29 && WeekdayOf(11016) == 2
  {
    KnownStarts();
    hide MonthStart, MonthOf;
    assert 12 * 1970 == 23640 && 12 * 2000 + 1 == 24001;
    MonthIsUnique(11016, 24001);
  }

  lemma KnownStarts()
    ensures MonthStart(23640) == 0 && MonthStart(24001) == 10988 && MonthStart(24002) == 11017
  {
    assert 23640 / 12 == 1970 && 24001 / 12 == 2000 && 24002 / 12 == 2000;
    assert YearStart(1970) == 0 && YearStart(2000) == 10957;
  }

  function DayOf(t: int): int { t / 86_400_000 }

  /** The instant `ms` milliseconds into a day. */
  function At(day: int, ms: int): int { day * 86_400_000 + ms }

  function TimeOfDay(t: int): (ms: int)
    ensures 0 <= ms < MS_PER_DAY
  {
    t % 86_400_000
  }

  lemma Instant(day: int, ms: int)
    requires 0 <= ms < MS_PER_DAY
    ensures DayOf(At(day, ms)) == day && TimeOfDay(At(day, ms)) == ms
  {}

  /** A date object in local time, changed in place by its setters; a date past the end of the month
      rolls over into the next one. */
  class LocalDate {
    var time: int

    constructor (t: int)
      ensures time == t
    {
      time := t;
    }

    method SetSecondsToZero()
      modifies this
      ensures time == old(time) - old(time) % 60_000
    {
      time := time - time % 60_000;
    }

    /** Keeps the day, the seconds and the milliseconds. */
    method SetHours(hour: int, minute: int)
      requires 0 <= hour < 24 && 0 <= minute < 60
      modifies this
      ensures time == At(DayOf(old(time)), (hour * 60 + minute) * 60_000) + old(time) % 60_000
    {
      time := At(DayOf(time), (hour * 60 + minute) * 60_000) + time % 60_000;
    }

    method GetDay() returns (weekday: int)
      ensures weekday == WeekdayOf(DayOf(time))
    {
      weekday := WeekdayOf(DayOf(time));
    }

    method GetDate() returns (date: int)
      ensures date == DateOf(DayOf(time))
    {
      date := DateOf(DayOf(time));
    }

    method GetMonth() returns (month: int)
      ensures month == MonthOf(DayOf(time))
    {
      month := MonthOf(DayOf(time));
    }

    method SetDate(date: int)
      modifies this
      ensures time == At(MonthStart(MonthOf(DayOf(old(time)))) + date - 1, TimeOfDay(old(time)))
    {
      time := At(MonthStart(MonthOf(DayOf(time))) + date - 1, TimeOfDay(time));
    }

    method SetMonth(month: int)
      modifies this
      ensures time == At(MonthStart(month) + DateOf(DayOf(old(time))) - 1, TimeOfDay(old(time)))
    {
      time := At(MonthStart(month) + DateOf(DayOf(time)) - 1, TimeOfDay(time));
    }
  }
}
