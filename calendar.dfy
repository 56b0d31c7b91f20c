/** The Gregorian calendar as Unreal's FDateTime uses it: the date validity rule,
    days per month, and the number of days from 0001-01-01 that FDateTime's
    (Year, Month, Day) constructor turns into ticks. */
module Calendar {

  datatype Date = Date(year: int, month: int, day: int)

  /** Ticks (100 ns units) per day. */
  const TicksPerDay: int := 864_000_000_000

  /** Divisible by 4, and not by 100 unless also by 400. */
  predicate IsLeapYear(year: int) {
    year % 4 == 0 && (year % 100 != 0 || year % 400 == 0)
  }

  function DaysInYear(year: int): int {
    if IsLeapYear(year) then 366 else 365
  }

  /** Days in each month of a common year, January first. */
  const DaysPerMonth: seq<int> := [31, 28, 31, 30, 31, 30, 31, 31, 30, 31, 30, 31]

  /** Days of a common year before the first of each month, January first. */
  const DaysToMonth: seq<int> := [0, 31, 59, 90, 120, 151, 181, 212, 243, 273, 304, 334]

  function DaysInMonth(year: int, month: int): int
    requires 1 <= month <= 12
  {
    if month == 2 && IsLeapYear(year) then 29 else DaysPerMonth[month - 1]
  }

  /** FDateTime::Validate: a year of 1 to 9999, a month of 1 to 12, a day within
      the month, and an in-range time of day. */
  predicate Validate(year: int, month: int, day: int, hour: int, minute: int, second: int, millisecond: int) {
    1 <= year <= 9999 &&
    1 <= month <= 12 &&
    1 <= day <= DaysInMonth(year, month) &&
    0 <= hour <= 23 && 0 <= minute <= 59 && 0 <= second <= 59 && 0 <= millisecond <= 999
  }

  predicate ValidDate(d: Date) {
    Validate(d.year, d.month, d.day, 0, 0, 0, 0)
  }

  /** Calendar order: by year, then month, then day. */
  predicate DateLeq(a: Date, b: Date) {
    a.year < b.year ||
    (a.year == b.year && (a.month < b.month || (a.month == b.month && a.day <= b.day)))
  }

  /** Days in the years before `year`. */
  function DaysBeforeYear(year: int): int
    requires year >= 1
  {
    var y := year - 1;
    y * 365 + y / 4 - y / 100 + y / 400
  }

  /** Days of `year` before the first of `month`. */
  function DaysBeforeMonth(year: int, month: int): int
    requires 1 <= month <= 12
  {
    DaysToMonth[month - 1] + (if month > 2 && IsLeapYear(year) then 1 else 0)
  }

  /** Days from 0001-01-01 to `d`: the day count FDateTime's date constructor
      multiplies by TicksPerDay. */
  function DayNumber(d: Date): int
    requires d.year >= 1 && 1 <= d.month <= 12
  {
    DaysBeforeYear(d.year) + DaysBeforeMonth(d.year, d.month) + d.day - 1
  }

  /** The ticks of midnight at the start of `d`. */
  function MidnightTicks(d: Date): int
    requires d.year >= 1 && 1 <= d.month <= 12
  {
    DayNumber(d) * TicksPerDay
  }

  /** The day after a valid date. */
  function NextDay(d: Date): (next: Date)
    requires ValidDate(d)
    ensures DateLeq(d, next) && next != d
  {
    if d.day < DaysInMonth(d.year, d.month) then Date(d.year, d.month, d.day + 1)
    else if d.month < 12 then Date(d.year, d.month + 1, 1)
    else Date(d.year + 1, 1, 1)
  }

  // ---------------------------------------------------------------------------
  // The day count agrees with the calendar

  /** Stepping a positive count by one crosses a multiple of 4, 100 or 400 exactly
      when it lands on one. */
  lemma MultiplesCrossed(n: int)
    requires n >= 1
    ensures n / 4 - (n - 1) / 4 == if n % 4 == 0 then 1 else 0
    ensures n / 100 - (n - 1) / 100 == if n % 100 == 0 then 1 else 0
    ensures n / 400 - (n - 1) / 400 == if n % 400 == 0 then 1 else 0
  {
    assert n / 4 - (n - 1) / 4 == if n % 4 == 0 then 1 else 0;
    assert n / 100 - (n - 1) / 100 == if n % 100 == 0 then 1 else 0;
  }

  /** A multiple of 400 is one of 100, and a multiple of 100 is one of 4. */
  lemma MultiplesNested(n: int)
    ensures n % 400 == 0 ==> n % 100 == 0
    ensures n % 100 == 0 ==> n % 4 == 0
  {
    if n % 400 == 0 {
      var k := 4 * (n / 400);
      assert n == 100 * k;
      MultipleOf100(k);
    }
    if n % 100 == 0 {
      var k := 25 * (n / 100);
      assert n == 4 * k;
      MultipleOf4(k);
    }
  }

  lemma MultipleOf100(k: int)
    ensures (100 * k) % 100 == 0
  {
  }

  lemma MultipleOf4(k: int)
    ensures (4 * k) % 4 == 0
  {
  }

  /** Moving from one year to the next adds the days of that year. */
  lemma DaysBeforeNextYear(year: int)
    requires year >= 1
    ensures DaysBeforeYear(year + 1) == DaysBeforeYear(year) + DaysInYear(year)
  {
    MultiplesCrossed(year);
    MultiplesNested(year);
  }

  /** Moving from one month to the next adds the days of that month; the last month
      ends the year. */
  lemma DaysBeforeNextMonth(year: int, month: int)
    requires 1 <= month <= 12
    ensures month < 12 ==> DaysBeforeMonth(year, month + 1) == DaysBeforeMonth(year, month) + DaysInMonth(year, month)
    ensures month == 12 ==> DaysBeforeMonth(year, month) + DaysInMonth(year, month) == DaysInYear(year)
  {
  }

  /** The day count of a valid date advances by one to the next day. */
  lemma DayNumberNextDay(d: Date)
    requires ValidDate(d)
    ensures DayNumber(NextDay(d)) == DayNumber(d) + 1
  {
    DaysBeforeNextMonth(d.year, d.month);
    if d.day == DaysInMonth(d.year, d.month) && d.month == 12 {
      DaysBeforeNextYear(d.year);
    }
  }

  /** Earlier months end no later than later months begin. */
  lemma {:induction false} MonthsOrdered(year: int, m1: int, m2: int)
    requires 1 <= m1 < m2 <= 12
    ensures DaysBeforeMonth(year, m1) + DaysInMonth(year, m1) <= DaysBeforeMonth(year, m2)
    decreases m2 - m1
  {
    DaysBeforeNextMonth(year, m1);
    if m1 + 1 < m2 {
      MonthsOrdered(year, m1 + 1, m2);
    }
  }

  /** Earlier years end no later than later years begin. */
  lemma {:induction false} YearsOrdered(y1: int, y2: int)
    requires 1 <= y1 < y2
    ensures DaysBeforeYear(y1) + DaysInYear(y1) <= DaysBeforeYear(y2)
    decreases y2 - y1
  {
    DaysBeforeNextYear(y1);
    if y1 + 1 < y2 {
      YearsOrdered(y1 + 1, y2);
    }
  }

  /** A valid date falls within its year. */
  lemma DayWithinYear(d: Date)
    requires ValidDate(d)
    ensures DaysBeforeYear(d.year) <= DayNumber(d) < DaysBeforeYear(d.year) + DaysInYear(d.year)
  {
    DaysBeforeNextMonth(d.year, d.month);
    if d.month < 12 {
      MonthsOrdered(d.year, d.month, 12);
      DaysBeforeNextMonth(d.year, 12);
    }
  }

  /** A date strictly earlier in the calendar has a strictly smaller day count. */
  lemma DayNumberStrictlyMonotone(a: Date, b: Date)
    requires ValidDate(a) && ValidDate(b)
    requires DateLeq(a, b) && a != b
    ensures DayNumber(a) < DayNumber(b)
  {
    if a.year < b.year {
      DayWithinYear(a);
      DayWithinYear(b);
      YearsOrdered(a.year, b.year);
    } else if a.month < b.month {
      MonthsOrdered(a.year, a.month, b.month);
    }
  }

  /** On valid dates the day count orders exactly as the calendar does. */
  lemma DayNumberOrder(a: Date, b: Date)
    requires ValidDate(a) && ValidDate(b)
    ensures DayNumber(a) <= DayNumber(b) <==> DateLeq(a, b)
  {
    if a != b {
      if DateLeq(a, b) {
        DayNumberStrictlyMonotone(a, b);
      } else {
        DayNumberStrictlyMonotone(b, a);
      }
    }
  }

  /** Midnight ticks order as day counts do. */
  lemma MidnightTicksOrder(a: Date, b: Date)
    requires a.year >= 1 && 1 <= a.month <= 12 && b.year >= 1 && 1 <= b.month <= 12
    ensures MidnightTicks(a) <= MidnightTicks(b) <==> DayNumber(a) <= DayNumber(b)
  {
  }
}
