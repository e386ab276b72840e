/** When a maintenance schedule next comes round: daily, weekly, or monthly with the day clamped to
    the length of the month, always at the same time of day. */
module Schedule {
  import opened Calendar

  datatype Frequency = Daily | Weekly | Monthly

  datatype Schedule = Schedule(frequency: Frequency, hour: int, minute: int, weekday: int, dayOfMonth: int)

  /** What the API lets into a schedule; the weekday and the day of the month may be anything. */
  predicate ValidSchedule(s: Schedule) { 0 <= s.hour < 24 && 0 <= s.minute < 60 }

  function TimeOf(s: Schedule): (ms: int)
    requires ValidSchedule(s)
    ensures 0 <= ms < MS_PER_DAY && ms % 60_000 == 0
  {
    (s.hour * 60 + s.minute) * 60_000
  }

  /** The weekday meant, whatever number stands for it. */
  function Target(s: Schedule): (weekday: int)
    ensures 0 <= weekday < 7
  {
    s.weekday % 7
  }

  function ClampedDay(s: Schedule): (day: int)
    ensures 1 <= day <= 31
  {
    if s.dayOfMonth < 1 then 1 else if s.dayOfMonth > 31 then 31 else s.dayOfMonth
  }

  /** The day a monthly schedule means in a given month. */
  function MonthlyDay(s: Schedule, month: int): int {
    MonthStart(month) + (if ClampedDay(s) <= MonthLength(month) then ClampedDay(s) else MonthLength(month)) - 1
  }

  predicate OnDay(s: Schedule, day: int) {
    match s.frequency
    case Daily => true
    case Weekly => WeekdayOf(day) == Target(s)
    case Monthly => day == MonthlyDay(s, MonthOf(day))
  }

  /** An instant that satisfies the schedule. */
  predicate Occurs(s: Schedule, t: int)
    requires ValidSchedule(s)
  {
    TimeOfDay(t) == TimeOf(s) && OnDay(s, DayOf(t))
  }

  ghost predicate QuietBetween(s: Schedule, from: int, to: int)
    requires ValidSchedule(s)
  {
    forall u :: from < u < to ==> !Occurs(s, u)
  }

  /** The first occurrence strictly after `from`. */
  ghost predicate IsNext(s: Schedule, from: int, t: int)
    requires ValidSchedule(s)
  {
    from < t && Occurs(s, t) && QuietBetween(s, from, t)
  }

  /** Told by the clock and the calendar alone: at the hour and minute given, on the weekday whose number leaves the
      same remainder by seven (Sunday is 0, and the clock starts on a Thursday), or on the day of the month given,
      but at least the first and at most the last there is. */
  lemma OccursIs(s: Schedule, t: int)
    requires ValidSchedule(s)
    ensures Occurs(s, t) <==>
      var day, month := t / 86_400_000, MonthOf(t / 86_400_000);
      && t % 86_400_000 == s.hour * 3_600_000 + s.minute * 60_000
      && match s.frequency
         case Daily => true
         case Weekly => (day + 4) % 7 == s.weekday % 7
         case Monthly =>
           day - MonthStart(month) + 1 ==
             (if s.dayOfMonth < 1 then 1
              else if s.dayOfMonth > MonthLength(month) then MonthLength(month) else s.dayOfMonth)
  {
    MonthLengthBounds(MonthOf(t / 86_400_000));
    hide MonthOf, MonthStart, MonthLength;
  }

  // ----- Days ------------------------------------------------------------------------------------

  ghost predicate QuietDays(s: Schedule, first: int, last: int) {
    forall day :: first <= day < last ==> !OnDay(s, day)
  }

  /** From the next matching day to the next occurrence: `first` is today when the time of day is
      still to come, and tomorrow when it has gone by. */
  lemma DayIsNext(s: Schedule, from: int, first: int, day: int)
    requires ValidSchedule(s)
    requires first == DayOf(from) + (if TimeOf(s) > TimeOfDay(from) then 0 else 1)
    requires first <= day && OnDay(s, day) && QuietDays(s, first, day)
    ensures IsNext(s, from, At(day, TimeOf(s)))
  {
    var t := At(day, TimeOf(s));
    Instant(day, TimeOf(s));
    hide OnDay, TimeOf;
    forall u | from < u < t ensures !Occurs(s, u) {
      if TimeOfDay(u) == TimeOf(s) {
        assert first <= DayOf(u) < day;
      }
    }
  }

  lemma WeekdayNext(s: Schedule, first: int, day: int)
    requires s.frequency.Weekly? && first <= day < first + 7 && WeekdayOf(day) == Target(s)
    ensures OnDay(s, day) && QuietDays(s, first, day)
  {}

  lemma EveryDay(s: Schedule, first: int)
    requires s.frequency.Daily?
    ensures OnDay(s, first) && QuietDays(s, first, first)
  {}

  lemma NextWeekday(first: int, target: int)
    requires 0 <= target < 7
    ensures WeekdayOf(first + (target - WeekdayOf(first)) % 7) == target
  {}

  lemma MonthlyDayInMonth(s: Schedule, month: int)
    ensures MonthStart(month) <= MonthlyDay(s, month) < MonthStart(month + 1)
    ensures MonthOf(MonthlyDay(s, month)) == month
  {
    MonthLengthBounds(month);
    hide MonthStart, MonthOf;
    MonthIsUnique(MonthlyDay(s, month), month);
  }

  /** Every month has exactly one day of a monthly schedule: short months are not skipped and the day
      does not slip into the next one. */
  lemma OncePerMonth(s: Schedule, month: int, day: int)
    requires s.frequency.Monthly?
    ensures MonthOf(day) == month && OnDay(s, day) <==> day == MonthlyDay(s, month)
  {
    MonthlyDayInMonth(s, month);
    hide MonthOf, MonthlyDay;
  }

  lemma MonthlyNext(s: Schedule, first: int, month: int)
    requires s.frequency.Monthly?
    requires MonthlyDay(s, month - 1) < first <= MonthlyDay(s, month)
    ensures OnDay(s, MonthlyDay(s, month)) && QuietDays(s, first, MonthlyDay(s, month))
  {
    MonthlyDayInMonth(s, month);
    MonthlyDayInMonth(s, month - 1);
    hide MonthStart, MonthOf, MonthlyDay;
    forall day | first <= day < MonthlyDay(s, month) ensures !OnDay(s, day) {
      if OnDay(s, day) {
        BetweenMonths(day, month);
      }
    }
  }

  lemma BetweenMonths(day: int, month: int)
    requires MonthStart(month - 1) <= day < MonthStart(month + 1)
    ensures MonthOf(day) == month || MonthOf(day) == month - 1
  {
    hide MonthStart, MonthOf;
    if day < MonthStart(month) {
      MonthIsUnique(day, month - 1);
    } else {
      MonthIsUnique(day, month);
    }
  }

  // ----- The next occurrence, in closed form --------------------------------------------------------

  /** Today when the time of day is still to come, and tomorrow when it has gone by. */
  function FirstDay(s: Schedule, from: int): int
    requires ValidSchedule(s)
  {
    DayOf(from) + (if TimeOf(s) > TimeOfDay(from) then 0 else 1)
  }

  function NextDay(s: Schedule, first: int): int {
    match s.frequency
    case Daily => first
    case Weekly => first + (Target(s) - WeekdayOf(first)) % 7
    case Monthly =>
      var month := MonthOf(first);
      if first <= MonthlyDay(s, month) then MonthlyDay(s, month) else MonthlyDay(s, month + 1)
  }

  function NextTime(s: Schedule, from: int): int
    requires ValidSchedule(s)
  {
    At(NextDay(s, FirstDay(s, from)), TimeOf(s))
  }

  lemma NextDayIsNext(s: Schedule, first: int)
    ensures var day := NextDay(s, first);
      first <= day && OnDay(s, day) && QuietDays(s, first, day)
  {
    hide MonthOf, MonthlyDay, WeekdayOf, Target, OnDay, QuietDays;
    match s.frequency
    case Daily => EveryDay(s, first);
    case Weekly =>
      NextWeekday(first, Target(s));
      WeekdayNext(s, first, NextDay(s, first));
    case Monthly => MonthlyDayIsNext(s, first, MonthOf(first));
  }

  lemma MonthlyDayIsNext(s: Schedule, first: int, month: int)
    requires s.frequency.Monthly? && MonthStart(month) <= first < MonthStart(month + 1)
    ensures var day := if first <= MonthlyDay(s, month) then MonthlyDay(s, month) else MonthlyDay(s, month + 1);
      first <= day && OnDay(s, day) && QuietDays(s, first, day)
  {
    hide MonthOf, MonthStart, MonthlyDay, OnDay, QuietDays, MonthLength;
    MonthlyDayInMonth(s, month - 1);
    MonthlyDayInMonth(s, month + 1);
    if first <= MonthlyDay(s, month) {
      MonthlyNext(s, first, month);
    } else {
      MonthlyNext(s, first, month + 1);
    }
  }

  /** It is the first occurrence strictly after `from`: nothing earlier is missed. */
  lemma NextTimeIsNext(s: Schedule, from: int)
    requires ValidSchedule(s)
    ensures IsNext(s, from, NextTime(s, from))
  {
    var first := FirstDay(s, from);
    NextDayIsNext(s, first);
    hide NextDay, IsNext, OnDay, QuietDays;
    DayIsNext(s, from, first, NextDay(s, first));
  }

  lemma NextIsUnique(s: Schedule, from: int, t: int)
    requires ValidSchedule(s) && IsNext(s, from, t)
    ensures t == NextTime(s, from)
  {
    NextTimeIsNext(s, from);
    hide NextTime, Occurs;
  }

  /** The end of February: asked on 29 February 2000 at midnight and at four in the morning, a schedule of half past
      three on the 31st comes round that night and then on 31 March. */
  lemma KnownMonthly()
    ensures var s := Schedule(Monthly, 3, 30, 0, 31);
      && NextTime(s, 11016 * 86_400_000) == 11016 * 86_400_000 + 12_600_000
      && NextTime(s, 11016 * 86_400_000 + 14_400_000) == 11047 * 86_400_000 + 12_600_000
  {
    KnownStarts();
    MonthLengths(24001);
    MonthLengths(24002);
    hide MonthStart, MonthOf, MonthLength;
    MonthLengthIs(24001);
    MonthLengthIs(24002);
    MonthIsUnique(11016, 24001);
    MonthIsUnique(11017, 24002);
  }

  lemma MonthLengthIs(month: int)
    ensures MonthStart(month + 1) == MonthStart(month) + MonthLength(month)
  {}

  /** Asked when the clock started, on a Thursday, three o'clock on Sundays is three days off. */
  lemma KnownWeekly()
    ensures NextTime(Schedule(Weekly, 3, 0, 0, 1), 0) == 3 * 86_400_000 + 10_800_000
  {}

  /** A later start never leads to an earlier run. */
  lemma NextIsMonotone(s: Schedule, from: int, later: int)
    requires ValidSchedule(s) && from <= later
    ensures NextTime(s, from) <= NextTime(s, later)
  {
    NextTimeIsNext(s, from);
    NextTimeIsNext(s, later);
    hide NextTime, Occurs;
  }

  function Iterated(s: Schedule, from: int, n: nat): int
    requires ValidSchedule(s)
  {
    if n == 0 then from else NextTime(s, Iterated(s, from, n - 1))
  }

  lemma {:induction false} IteratedShift(s: Schedule, from: int, n: nat)
    requires ValidSchedule(s)
    ensures Iterated(s, from, n + 1) == Iterated(s, NextTime(s, from), n)
  {
    hide NextTime;
    if n > 0 {
      IteratedShift(s, from, n - 1);
    }
  }

  /** Running from occurrence to occurrence reaches every one of them. */
  lemma {:induction false} NothingIsSkipped(s: Schedule, from: int, u: int) returns (n: nat)
    requires ValidSchedule(s) && from < u && Occurs(s, u)
    ensures n > 0 && Iterated(s, from, n) == u
    decreases u - from
  {
    var next := NextTime(s, from);
    NextTimeIsNext(s, from);
    hide NextTime, Occurs;
    assert next <= u;
    if next == u {
      n := 1;
      assert Iterated(s, from, 0) == from;
    } else {
      var m := NothingIsSkipped(s, next, u);
      IteratedShift(s, from, m);
      n := m + 1;
    }
  }

  /** A daily schedule comes round within a day, a weekly one within a week, a monthly one within 62 days. */
  lemma NextIsSoon(s: Schedule, from: int)
    requires ValidSchedule(s)
    ensures NextTime(s, from) - from
      <= (if s.frequency.Daily? then 86_400_000 else if s.frequency.Weekly? then 7 * 86_400_000 else 62 * 86_400_000)
  {
    var first := FirstDay(s, from);
    assert At(first, TimeOf(s)) <= from + 86_400_000;
    hide MonthOf, MonthStart, MonthlyDay, TimeOf, FirstDay;
    NextDayIsSoon(s, first);
    hide NextDay;
  }

  lemma NextDayIsSoon(s: Schedule, first: int)
    ensures NextDay(s, first) - first <= (match s.frequency case Daily => 0 case Weekly => 6 case Monthly => 61)
  {
    hide MonthOf, MonthStart, MonthlyDay;
    if s.frequency.Monthly? {
      var month := MonthOf(first);
      MonthlyDayInMonth(s, month);
      MonthlyDayInMonth(s, month + 1);
      MonthLengthBounds(month);
      MonthLengthBounds(month + 1);
    }
  }

  // ----- The computation ---------------------------------------------------------------------------

  /** The remainder with the sign of the dividend, as `%` computes it in the source's language. */
  function Rem(a: int, b: int): int
    requires b > 0
  {
    if a >= 0 then a % b else -((-a) % b)
  }

  lemma RemTwice(a: int)
    ensures Rem(Rem(a, 7) + 7, 7) == a % 7
  {}

  lemma DateBack(day: int)
    ensures MonthStart(MonthOf(day)) + DateOf(day) - 1 == day
  {
    hide MonthStart, MonthOf;
  }

  /** The date object after its seconds are cleared and its hours set. */
  lemma Today(s: Schedule, from: int, t: int)
    requires ValidSchedule(s)
    requires var minute := from - from % 60_000;
      t == At(DayOf(minute), (s.hour * 60 + s.minute) * 60_000) + minute % 60_000
    ensures t == At(DayOf(from), TimeOf(s))
    ensures t <= from <==> TimeOf(s) <= TimeOfDay(from)
  {
    SameDay(from);
  }

  lemma SameDay(from: int)
    ensures DayOf(from - from % 60_000) == DayOf(from)
    ensures (from - from % 60_000) % 60_000 == 0
  {
    var q, r := from / 60_000, from % 60_000;
    assert from == q * 60_000 + r;
  }

  /** Moves a date object to the schedule's day in the month it stands in. */
  method Place(d: LocalDate, s: Schedule)
    modifies d
    ensures d.time == At(MonthlyDay(s, MonthOf(DayOf(old(d.time)))), TimeOfDay(old(d.time)))
  {
    hide MonthStart, MonthOf, DayOf, TimeOfDay;
    var day := ClampedDay(s);
    var month := d.GetMonth();
    var lastDay := MonthLength(month);
    d.SetDate(if day <= lastDay then day else lastDay);
  }

  lemma WeeklyDelta(s: Schedule, from: int, delta: int)
    requires ValidSchedule(s) && s.frequency.Weekly?
    requires var d := Rem(Target(s) - WeekdayOf(DayOf(from)) + 7, 7);
      delta == if d == 0 && At(DayOf(from), TimeOf(s)) <= from then 7 else d
    ensures NextDay(s, FirstDay(s, from)) == DayOf(from) + delta
  {
    FirstOrNow(s, from, DayOf(from));
    hide At, FirstDay, DayOf, TimeOf;
  }

  /** Looking in this month and then in the next finds the same day as starting from the first day. */
  lemma MonthlyChoice(s: Schedule, from: int)
    requires ValidSchedule(s) && s.frequency.Monthly?
    ensures var month, today := MonthOf(DayOf(from)), DayOf(from);
      NextDay(s, FirstDay(s, from)) ==
        if At(MonthlyDay(s, month), TimeOf(s)) <= from then MonthlyDay(s, month + 1) else MonthlyDay(s, month)
  {
    hide *;
    FirstOrNow(s, from, MonthlyDay(s, MonthOf(DayOf(from))));
    TodayOrTomorrow(s, DayOf(from), FirstDay(s, from));
  }

  lemma TodayOrTomorrow(s: Schedule, today: int, first: int)
    requires s.frequency.Monthly? && (first == today || first == today + 1)
    ensures var month := MonthOf(today);
      NextDay(s, first) == if MonthlyDay(s, month) < first then MonthlyDay(s, month + 1) else MonthlyDay(s, month)
  {
    hide MonthOf, MonthStart, MonthlyDay, MonthLength;
    var month := MonthOf(today);
    MonthlyDayInMonth(s, month);
    MonthlyDayInMonth(s, month + 1);
    NextMonthOf(today);
  }

  lemma FirstOrNow(s: Schedule, from: int, day: int)
    requires ValidSchedule(s)
    ensures At(day, TimeOf(s)) <= from <==> day < FirstDay(s, from)
    ensures FirstDay(s, from) == DayOf(from) || FirstDay(s, from) == DayOf(from) + 1
  {
    hide TimeOf;
  }

  lemma NextMonthOf(day: int)
    ensures MonthOf(day + 1) == MonthOf(day)
      || (MonthOf(day + 1) == MonthOf(day) + 1 && day + 1 == MonthStart(MonthOf(day) + 1))
  {
    var month := MonthOf(day);
    MonthsGrow(month + 1);
    hide MonthOf, MonthStart;
    if day + 1 < MonthStart(month + 1) {
      MonthIsUnique(day + 1, month);
    } else {
      MonthIsUnique(day + 1, month + 1);
    }
  }

  /** The first of a month lies in that month. */
  lemma FirstOfMonth(month: int)
    ensures MonthOf(MonthStart(month)) == month && DateOf(MonthStart(month)) == 1
  {
    MonthsGrow(month);
    MonthIsUnique(MonthStart(month), month);
    hide MonthOf, MonthStart;
  }

  /** The next occurrence, found by moving a date object step by step. */
  method NextRun(s: Schedule, from: int) returns (time: int)
    requires ValidSchedule(s)
    ensures IsNext(s, from, time)
    ensures time == NextTime(s, from)
  {
    assert 0 <= s.hour < 24 && 0 <= s.minute < 60;
    hide *;
    var next := new LocalDate(from);
    next.SetSecondsToZero();
    next.SetHours(s.hour, s.minute);
    Today(s, from, next.time);
    match s.frequency {
      case Daily => DailyRun(next, s, from);
      case Weekly => WeeklyRun(next, s, from);
      case Monthly => MonthlyRun(next, s, from);
    }
    time := next.time;
    NextTimeIsNext(s, from);
  }

  lemma NextTimeIs(s: Schedule, from: int)
    requires ValidSchedule(s)
    ensures NextTime(s, from) == At(NextDay(s, FirstDay(s, from)), TimeOf(s))
    ensures s.frequency.Daily? ==> NextDay(s, FirstDay(s, from)) == FirstDay(s, from)
  {
    hide At, FirstDay, TimeOf, MonthOf, MonthlyDay;
  }

  method DailyRun(next: LocalDate, s: Schedule, from: int)
    requires ValidSchedule(s) && s.frequency.Daily?
    requires next.time == At(DayOf(from), TimeOf(s))
    modifies next
    ensures next.time == NextTime(s, from)
  {
    hide *;
    FirstOrNow(s, from, DayOf(from));
    DateBack(DayOf(from));
    Instant(DayOf(from), TimeOf(s));
    NextTimeIs(s, from);
    if next.time <= from {
      var date := next.GetDate();
      next.SetDate(date + 1);
    }
  }

  method WeeklyRun(next: LocalDate, s: Schedule, from: int)
    requires ValidSchedule(s) && s.frequency.Weekly?
    requires next.time == At(DayOf(from), TimeOf(s))
    modifies next
    ensures next.time == NextTime(s, from)
  {
    hide *;
    TargetIs(s);
    DateBack(DayOf(from));
    Instant(DayOf(from), TimeOf(s));
    NextTimeIs(s, from);
    var target := Rem(Rem(s.weekday, 7) + 7, 7);
    var weekday := next.GetDay();
    var delta := Rem(target - weekday + 7, 7);
    if delta == 0 && next.time <= from {
      delta := 7;
    }
    WeeklyDelta(s, from, delta);
    var date := next.GetDate();
    next.SetDate(date + delta);
  }

  /** This month's day, or next month's when that has gone by. */
  method MonthlyRun(next: LocalDate, s: Schedule, from: int)
    requires ValidSchedule(s) && s.frequency.Monthly?
    requires next.time == At(DayOf(from), TimeOf(s))
    modifies next
    ensures next.time == NextTime(s, from)
  {
    hide *;
    var ms, month := TimeOf(s), MonthOf(DayOf(from));
    NextTimeIs(s, from);
    Instant(DayOf(from), ms);
    Instant(MonthStart(month), ms);
    Instant(MonthlyDay(s, month), ms);
    Instant(MonthStart(month + 1), ms);
    FirstOfMonth(month);
    FirstOfMonth(month + 1);
    MonthlyDayInMonth(s, month);
    MonthlyChoice(s, from);
    next.SetDate(1);
    Place(next, s);
    if next.time <= from {
      next.SetDate(1);
      var current := next.GetMonth();
      next.SetMonth(current + 1);
      Place(next, s);
    }
  }

  lemma TargetIs(s: Schedule)
    ensures Rem(Rem(s.weekday, 7) + 7, 7) == Target(s)
  {
    RemTwice(s.weekday);
  }
}
