/** Calendar dates of the single operating year (2025, not a leap year),
    their day numbers, and weekdays. A delivery date is carried as its day
    number: the count of days since 1 January 2025, so that date arithmetic
    (`timedelta`, differences of dates) is integer arithmetic. */
module Dates {

  /** The year every date read from a file name is placed in. */
  const OperatingYear: int := 2025

  datatype Date = Date(month: int, day: int)

  /** The Gregorian leap-year rule. */
  predicate IsLeapYear(y: int)
  {
    y % 4 == 0 && (y % 100 != 0 || y % 400 == 0)
  }

  /** Length of month `m` of the operating year. */
  function DaysInMonth(m: int): (n: int)
    requires 1 <= m <= 12
    ensures 28 <= n <= 31
    ensures n == 28 <==> m == 2
  {
    if m == 2 then (if IsLeapYear(OperatingYear) then 29 else 28)
    else if m == 4 || m == 6 || m == 9 || m == 11 then 30
    else 31
  }

  /** What `datetime(2025, month, day)` accepts without raising. */
  predicate Valid(d: Date)
  {
    1 <= d.month <= 12 && 1 <= d.day <= DaysInMonth(d.month)
  }

  /** Number of days of 2025 before the first of month `m` (`m == 13` gives
      the length of the year). */
  function DaysBefore(m: int): (n: int)
    requires 1 <= m <= 13
    ensures 0 <= n <= 365
    ensures m == 1 ==> n == 0
    ensures m == 13 ==> n == 365
  {
    if m <= 6 then
      if m == 1 then 0 else if m == 2 then 31 else if m == 3 then 59
      else if m == 4 then 90 else if m == 5 then 120 else 151
    else
      if m == 7 then 181 else if m == 8 then 212 else if m == 9 then 243
      else if m == 10 then 273 else if m == 11 then 304 else if m == 12 then 334 else 365
  }

  /** Each month starts where the one before it ends. */
  lemma DaysBeforeStep(m: int)
    requires 1 <= m <= 12
    ensures DaysBefore(m + 1) == DaysBefore(m) + DaysInMonth(m)
  {
  }

  /** Days since 1 January 2025. */
  function DayNumber(d: Date): (n: int)
    requires Valid(d)
    ensures 0 <= n < 365
    ensures DaysBefore(d.month) <= n < DaysBefore(d.month + 1)
  {
    DaysBefore(d.month) + d.day - 1
  }

  /** The month containing day number `n`, searched from month `m` on. */
  function MonthOf(n: int, m: int): (r: int)
    requires 1 <= m <= 12 && DaysBefore(m) <= n < 365
    ensures m <= r <= 12 && DaysBefore(r) <= n < DaysBefore(r + 1)
    decreases 12 - m
  {
    if n < DaysBefore(m + 1) then m else MonthOf(n, m + 1)
  }

  /** The date of day number `n` of 2025. */
  function FromDayNumber(n: int): (d: Date)
    requires 0 <= n < 365
    ensures Valid(d) && DayNumber(d) == n
  {
    var m := MonthOf(n, 1);
    DaysBeforeStep(m);
    Date(m, n - DaysBefore(m) + 1)
  }

  /** Months start at increasing day numbers. */
  lemma {:induction false} DaysBeforeMonotone(m1: int, m2: int)
    requires 1 <= m1 <= m2 <= 13
    ensures DaysBefore(m1) <= DaysBefore(m2)
    ensures m1 < m2 ==> DaysBefore(m1 + 1) <= DaysBefore(m2)
    decreases m2 - m1
  {
    if m1 < m2 {
      DaysBeforeStep(m1);
      DaysBeforeMonotone(m1 + 1, m2);
    }
  }

  /** Day numbers order dates as the calendar does: by month, then by day. */
  lemma DayNumberOrder(a: Date, b: Date)
    requires Valid(a) && Valid(b)
    ensures DayNumber(a) < DayNumber(b) <==>
            a.month < b.month || (a.month == b.month && a.day < b.day)
  {
    if a.month < b.month {
      DaysBeforeMonotone(a.month, b.month);
    } else if b.month < a.month {
      DaysBeforeMonotone(b.month, a.month);
    }
  }

  /** Distinct dates have distinct day numbers, and the day number determines
      the date. */
  lemma DayNumberRoundTrip(d: Date)
    requires Valid(d)
    ensures FromDayNumber(DayNumber(d)) == d
  {
    var e := FromDayNumber(DayNumber(d));
    DayNumberOrder(d, e);
    DayNumberOrder(e, d);
  }

  datatype Weekday = Monday | Tuesday | Wednesday | Thursday | Friday | Saturday | Sunday

  /** The weekday of the `k`-th day of the week, Monday being 0 (Python's
      `weekday()`). */
  function WeekdayAt(k: int): Weekday
    requires 0 <= k < 7
  {
    [Monday, Tuesday, Wednesday, Thursday, Friday, Saturday, Sunday][k]
  }

  /** The weekday of day number `n`; 1 January 2025 was a Wednesday. */
  function WeekdayOf(n: int): (w: Weekday)
    ensures w == Wednesday <==> n % 7 == 0
    ensures w == Monday <==> n % 7 == 5
  {
    WeekdayAt((n + 2) % 7)
  }

  /** Dates a whole number of weeks apart fall on the same weekday. */
  lemma {:induction false} WeekdayPeriodic(n: int, weeks: nat)
    ensures WeekdayOf(n + 7 * weeks) == WeekdayOf(n)
    decreases weeks
  {
    if weeks > 0 {
      WeekdayPeriodic(n, weeks - 1);
      assert (n + 7 * weeks + 2) % 7 == (n + 7 * (weeks - 1) + 2) % 7;
    }
  }

  /** The weekday after `w`. */
  function NextWeekday(w: Weekday): Weekday
  {
    match w
    case Monday => Tuesday
    case Tuesday => Wednesday
    case Wednesday => Thursday
    case Thursday => Friday
    case Friday => Saturday
    case Saturday => Sunday
    case Sunday => Monday
  }

  /** Consecutive days fall on consecutive weekdays; with day 0 a
      Wednesday, this fixes the weekday of every day. */
  lemma WeekdayNext(n: int)
    ensures WeekdayOf(n + 1) == NextWeekday(WeekdayOf(n))
  {
    var k := (n + 2) % 7;
    if k < 6 {
      assert (n + 1 + 2) % 7 == k + 1;
    } else {
      assert (n + 1 + 2) % 7 == 0;
    }
  }

  /** The names tell the weekdays apart, so counting names, as the
      analysis does, counts weekdays; day 0 is named `Wednesday`. */
  lemma WeekdayNames()
    ensures WeekdayName(WeekdayOf(0)) == "Wednesday"
    ensures forall v, w :: WeekdayName(v) == WeekdayName(w) ==> v == w
  {
    forall v, w | WeekdayName(v) == WeekdayName(w) ensures v == w {
      var a, b := WeekdayName(v), WeekdayName(w);
      assert |a| == |b| && a[0] == b[0] && a[1] == b[1];
    }
  }

  /** `strftime('%A')` */
  function WeekdayName(w: Weekday): string
  {
    match w
    case Monday => "Monday"
    case Tuesday => "Tuesday"
    case Wednesday => "Wednesday"
    case Thursday => "Thursday"
    case Friday => "Friday"
    case Saturday => "Saturday"
    case Sunday => "Sunday"
  }
}
