/** Calendar arithmetic for the billing window (`get_seconds_from_rest_day`):
    proleptic Gregorian dates, a day number for each date, and the seconds
    elapsed since 00:00 of the most recent reset day. */
module Calendar {
  import opened Basics

  const SecondsPerDay: int := 86400

  datatype Date = Date(year: int, month: int, day: int)

  predicate IsLeapYear(y: int) {
    y % 4 == 0 && (y % 100 != 0 || y % 400 == 0)
  }

  function DaysInMonth(y: int, m: int): (n: int)
    requires 1 <= m <= 12
    ensures 28 <= n <= 31
  {
    if m == 2 then (if IsLeapYear(y) then 29 else 28)
    else if m == 4 || m == 6 || m == 9 || m == 11 then 30
    else 31
  }

  predicate ValidDate(d: Date) {
    1 <= d.month <= 12 && 1 <= d.day <= DaysInMonth(d.year, d.month)
  }

  /** A local wall-clock reading: a date and the whole seconds since its midnight. */
  datatype LocalTime = LocalTime(date: Date, secondOfDay: int)

  predicate ValidLocalTime(t: LocalTime) {
    ValidDate(t.date) && 0 <= t.secondOfDay < SecondsPerDay
  }

  /** What the local clock can return. */
  type ValidTime = t: LocalTime | ValidLocalTime(t) witness LocalTime(Date(1970, 1, 1), 0)

  /** Days from January 1 of year y to the first of month m. */
  function DaysBeforeMonth(y: int, m: int): nat
    requires 1 <= m <= 13
  {
    if m == 1 then 0 else DaysBeforeMonth(y, m - 1) + DaysInMonth(y, m - 1)
  }

  function DaysInYear(y: int): int {
    if IsLeapYear(y) then 366 else 365
  }

  /** Days from 0001-01-01 to January 1 of year y (negative before year 1). */
  function DaysBeforeYear(y: int): int {
    var p := y - 1;
    365 * p + p / 4 - p / 100 + p / 400
  }

  /** The day number of a date: 0001-01-01 is day 0 and each later day is one more. */
  function DaysFromCivil(d: Date): int
    requires ValidDate(d)
  {
    DaysBeforeYear(d.year) + DaysBeforeMonth(d.year, d.month) + d.day - 1
  }

  /** The twelve months of a year add up to its length. */
  lemma MonthsFillYear(y: int)
    ensures DaysBeforeMonth(y, 13) == DaysInYear(y)
  {
    assert DaysBeforeMonth(y, 2) == 31;
    assert DaysBeforeMonth(y, 3) == 31 + DaysInMonth(y, 2);
    assert DaysBeforeMonth(y, 4) == DaysBeforeMonth(y, 3) + 31;
    assert DaysBeforeMonth(y, 5) == DaysBeforeMonth(y, 3) + 61;
    assert DaysBeforeMonth(y, 6) == DaysBeforeMonth(y, 3) + 92;
    assert DaysBeforeMonth(y, 7) == DaysBeforeMonth(y, 3) + 122;
    assert DaysBeforeMonth(y, 8) == DaysBeforeMonth(y, 3) + 153;
    assert DaysBeforeMonth(y, 9) == DaysBeforeMonth(y, 3) + 184;
    assert DaysBeforeMonth(y, 10) == DaysBeforeMonth(y, 3) + 214;
    assert DaysBeforeMonth(y, 11) == DaysBeforeMonth(y, 3) + 245;
    assert DaysBeforeMonth(y, 12) == DaysBeforeMonth(y, 3) + 275;
  }

  /** The closed-form year offsets step by exactly one year length. */
  lemma YearStep(y: int)
    ensures DaysBeforeYear(y + 1) == DaysBeforeYear(y) + DaysInYear(y)
  {
    Div4Step(y);
    Div100Step(y);
    Div400Step(y);
  }

  lemma Div4Step(y: int)
    ensures y / 4 - (y - 1) / 4 == (if y % 4 == 0 then 1 else 0)
  {
  }

  lemma Div100Step(y: int)
    ensures y / 100 - (y - 1) / 100 == (if y % 100 == 0 then 1 else 0)
  {
  }

  lemma Div400Step(y: int)
    ensures y / 400 - (y - 1) / 400 == (if y % 400 == 0 then 1 else 0)
  {
  }

  /** The calendar successor of a valid date. */
  function NextDay(d: Date): (r: Date)
    requires ValidDate(d)
    ensures ValidDate(r)
  {
    if d.day < DaysInMonth(d.year, d.month) then Date(d.year, d.month, d.day + 1)
    else if d.month < 12 then Date(d.year, d.month + 1, 1)
    else Date(d.year + 1, 1, 1)
  }

  /** Day numbers count days: the next calendar day is exactly one more,
      across month and year ends and leap days alike. */
  lemma NextDayCounts(d: Date)
    requires ValidDate(d)
    ensures DaysFromCivil(NextDay(d)) == DaysFromCivil(d) + 1
  {
    if d.day == DaysInMonth(d.year, d.month) && d.month == 12 {
      MonthsFillYear(d.year);
      YearStep(d.year);
    }
  }

  /** Calendar order: year, then month, then day. */
  predicate Before(a: Date, b: Date) {
    a.year < b.year ||
    (a.year == b.year && (a.month < b.month || (a.month == b.month && a.day <= b.day)))
  }

  /** `Local.with_ymd_and_hms(y, m, d, 0, 0, 0).unwrap()`: panics unless the
      numbers name a date. */
  function MakeDate(y: int, m: int, d: int): (r: Outcome<Date>)
    ensures r.Ok? <==> ValidDate(Date(y, m, d))
    ensures r.Ok? ==> r.value == Date(y, m, d)
    ensures r.Panic? ==> r.reason == InvalidDate
  {
    if 1 <= m <= 12 && 1 <= d <= DaysInMonth(y, m) then Ok(Date(y, m, d)) else Panic(InvalidDate)
  }

  /** The start of the current billing cycle as the source computes it: the
      reset day of the previous month (same year, month number minus one) when
      today is before the reset day, else the reset day of this month. */
  function CycleStart(today: Date, resetDay: u8): (r: Outcome<Date>)
    requires ValidDate(today)
    ensures r.Ok? ==> ValidDate(r.value) && r.value.day == resetDay && Before(r.value, today)
  {
    if today.day < resetDay then MakeDate(today.year, today.month - 1, resetDay)
    else MakeDate(today.year, today.month, resetDay)
  }

  /** `get_seconds_from_rest_day` with the clock reading passed in. */
  function SecondsFromResetDay(resetDay: u8, now: ValidTime): Outcome<int> {
    match CycleStart(now.date, resetDay)
    case Panic(e) => Panic(e)
    case Ok(start) =>
      Ok((DaysFromCivil(now.date) - DaysFromCivil(start)) * SecondsPerDay + now.secondOfDay)
  }

  /** When the start is computed, the window panics exactly in three cases:
      a reset day of 0, a reset day later than today in January (month 0),
      and a reset day later than today that the previous month does not have.
      Otherwise the start is the reset day in this month or, when today is
      earlier, in the previous month. */
  lemma CycleStartCases(today: Date, resetDay: u8)
    requires ValidDate(today)
    ensures CycleStart(today, resetDay).Panic? <==>
              resetDay == 0 ||
              (today.day < resetDay && today.month == 1) ||
              (today.day < resetDay && today.month > 1 && resetDay > DaysInMonth(today.year, today.month - 1))
    ensures 1 <= resetDay <= today.day ==>
              CycleStart(today, resetDay) == Ok(Date(today.year, today.month, resetDay))
    ensures today.day < resetDay && CycleStart(today, resetDay).Ok? ==>
              CycleStart(today, resetDay) == Ok(Date(today.year, today.month - 1, resetDay))
  {
  }

  /** The computed start is the latest date with the reset day-of-month that
      is not after today. */
  lemma CycleStartIsMostRecent(today: Date, resetDay: u8, d: Date)
    requires ValidDate(today) && CycleStart(today, resetDay).Ok?
    requires ValidDate(d) && d.day == resetDay && Before(d, today)
    ensures var start := CycleStart(today, resetDay).value;
            start.day == resetDay && Before(start, today) && Before(d, start)
  {
  }

  /** The number of days in the window, from the calendar alone. */
  function DaysSinceReset(today: Date, resetDay: u8): int
    requires ValidDate(today) && (today.day < resetDay ==> today.month > 1)
  {
    if today.day < resetDay then DaysInMonth(today.year, today.month - 1) - resetDay + today.day
    else today.day - resetDay
  }

  lemma {:induction false} DaysBeforeMonthStep(y: int, m: int)
    requires 1 <= m <= 12
    ensures DaysBeforeMonth(y, m + 1) == DaysBeforeMonth(y, m) + DaysInMonth(y, m)
  {
  }

  /** Whenever the start is a date, the window is the whole days since the
      reset midnight plus the seconds since today's midnight: never negative
      and shorter than 31 days. */
  lemma WindowSeconds(resetDay: u8, now: ValidTime)
    requires SecondsFromResetDay(resetDay, now).Ok?
    ensures now.date.day < resetDay ==> now.date.month > 1
    ensures SecondsFromResetDay(resetDay, now).value ==
              DaysSinceReset(now.date, resetDay) * SecondsPerDay + now.secondOfDay
    ensures 0 <= SecondsFromResetDay(resetDay, now).value < 31 * SecondsPerDay
  {
    var today := now.date;
    if today.day < resetDay {
      DaysBeforeMonthStep(today.year, today.month - 1);
    }
  }

  /** A reset on the first of the month (the fallback limit's) never panics. */
  lemma FirstOfMonthNeverPanics(now: ValidTime)
    ensures SecondsFromResetDay(1, now) ==
              Ok((now.date.day - 1) * SecondsPerDay + now.secondOfDay)
  {
  }

  /** 2024-03-15 with reset day 20 starts at 2024-02-20 (24 days earlier);
      2024-03-25 with reset day 20 starts at 2024-03-20 (5 days earlier). */
  lemma WindowExamples(s: int)
    requires 0 <= s < SecondsPerDay
    ensures CycleStart(Date(2024, 3, 15), 20) == Ok(Date(2024, 2, 20))
    ensures SecondsFromResetDay(20, LocalTime(Date(2024, 3, 15), s)) == Ok(24 * SecondsPerDay + s)
    ensures CycleStart(Date(2024, 3, 25), 20) == Ok(Date(2024, 3, 20))
    ensures SecondsFromResetDay(20, LocalTime(Date(2024, 3, 25), s)) == Ok(5 * SecondsPerDay + s)
  {
    WindowSeconds(20, LocalTime(Date(2024, 3, 15), s));
    WindowSeconds(20, LocalTime(Date(2024, 3, 25), s));
  }

  /** The failures that clamping would have avoided: January before the reset
      day, and reset day 31 in March before the 31st. */
  lemma WindowPanics()
    ensures CycleStart(Date(2024, 1, 10), 20) == Panic(InvalidDate)
    ensures CycleStart(Date(2023, 3, 30), 31) == Panic(InvalidDate)
    ensures CycleStart(Date(2024, 5, 10), 0) == Panic(InvalidDate)
  {
  }
}
