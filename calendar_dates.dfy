/** Local calendar dates as the application's JavaScript `Date` values carry
    them (`getFullYear`, `getMonth() + 1`, `getDate`, `getDay`), on the
    proleptic Gregorian calendar, together with the normalising constructor
    `new Date(year, monthIndex, day)`. Time of day, time zones and daylight
    saving time are not part of this model: a `Date` here is a local midnight. */
module CalendarDates {

  datatype Date = Date(year: int, month: int, day: int)

  predicate IsLeapYear(y: int) {
    y % 4 == 0 && (y % 100 != 0 || y % 400 == 0)
  }

  function DaysInMonth(y: int, m: int): (n: int)
    requires 1 <= m <= 12
    ensures 28 <= n <= 31
    ensures n == 29 <==> m == 2 && IsLeapYear(y)
  {
    if m == 2 then (if IsLeapYear(y) then 29 else 28)
    else if m == 4 || m == 6 || m == 9 || m == 11 then 30
    else 31
  }

  function DaysInYear(y: int): int {
    if IsLeapYear(y) then 366 else 365
  }

  /** A real calendar day: month 1..12, day within the month. */
  predicate Valid(d: Date) {
    1 <= d.month <= 12 && 1 <= d.day <= DaysInMonth(d.year, d.month)
  }

  /** Days of year `y` before the first of month `m`. */
  function DaysBeforeMonth(y: int, m: int): nat
    requires 1 <= m <= 12
  {
    [0, 31, 59, 90, 120, 151, 181, 212, 243, 273, 304, 334][m - 1] + (if m > 2 && IsLeapYear(y) then 1 else 0)
  }

  /** Days from 0001-01-01 to the first of January of year `y` (negative before year 1). */
  function DaysBeforeYear(y: int): int
    decreases if y >= 1 then y - 1 else 1 - y
  {
    if y == 1 then 0
    else if y > 1 then DaysBeforeYear(y - 1) + DaysInYear(y - 1)
    else DaysBeforeYear(y + 1) - DaysInYear(y)
  }

  /** Days since 0001-01-01, which is day 0 and a Monday. */
  function DayNumber(d: Date): int
    requires Valid(d)
  {
    DaysBeforeYear(d.year) + DaysBeforeMonth(d.year, d.month) + d.day - 1
  }

  /** `getDay()`: 0 is Sunday, 6 is Saturday. */
  function Weekday(d: Date): (w: nat)
    requires Valid(d)
    ensures w < 7
  {
    (DayNumber(d) + 1) % 7
  }

  // ---------------------------------------------------------------------------
  // Day arithmetic behind DayNumber
  // ---------------------------------------------------------------------------

  /** One more year adds that year's length. */
  lemma {:induction false} YearStep(y: int)
    ensures DaysBeforeYear(y + 1) == DaysBeforeYear(y) + DaysInYear(y)
  {
  }

  lemma {:induction false} YearMonotone(a: int, b: int)
    requires a <= b
    ensures DaysBeforeYear(a) <= DaysBeforeYear(b)
    decreases b - a
  {
    if a < b {
      YearStep(b - 1);
      YearMonotone(a, b - 1);
    }
  }

  // ---------------------------------------------------------------------------
  // Successor, predecessor, stepping by whole days
  // ---------------------------------------------------------------------------

  /** The following calendar day. */
  function Next(d: Date): (r: Date)
    requires Valid(d)
    ensures Valid(r) && Before(d, r)
  {
    if d.day < DaysInMonth(d.year, d.month) then Date(d.year, d.month, d.day + 1)
    else if d.month < 12 then Date(d.year, d.month + 1, 1)
    else Date(d.year + 1, 1, 1)
  }

  /** The preceding calendar day. */
  function Prev(d: Date): (r: Date)
    requires Valid(d)
    ensures Valid(r) && Before(r, d)
  {
    if d.day > 1 then Date(d.year, d.month, d.day - 1)
    else if d.month > 1 then Date(d.year, d.month - 1, DaysInMonth(d.year, d.month - 1))
    else Date(d.year - 1, 12, 31)
  }

  /** The day `k` days after `d` (before it when `k` is negative). */
  function AddDays(d: Date, k: int): (r: Date)
    requires Valid(d)
    ensures Valid(r)
    decreases if k >= 0 then k else -k
  {
    if k == 0 then d
    else if k > 0 then AddDays(Next(d), k - 1)
    else AddDays(Prev(d), k + 1)
  }

  /** `Next` moves one day forward in day numbers. */
  lemma {:induction false} NextNumber(d: Date)
    requires Valid(d)
    ensures DayNumber(Next(d)) == DayNumber(d) + 1
  {
    MonthEnd(d.year, d.month);
    if d.day == DaysInMonth(d.year, d.month) && d.month == 12 {
      YearStep(d.year);
    }
  }

  /** `Prev` moves one day back in day numbers. */
  lemma {:induction false} PrevNumber(d: Date)
    requires Valid(d)
    ensures DayNumber(Prev(d)) == DayNumber(d) - 1
  {
    if d.day == 1 && d.month > 1 {
      MonthEnd(d.year, d.month - 1);
    } else if d.day == 1 {
      YearStep(d.year - 1);
      MonthEnd(d.year - 1, 12);
    }
  }

  /** `AddDays` moves `k` days in day numbers. */
  lemma {:induction false} AddDaysNumber(d: Date, k: int)
    requires Valid(d)
    ensures DayNumber(AddDays(d, k)) == DayNumber(d) + k
    decreases if k >= 0 then k else -k
  {
    if k > 0 {
      NextNumber(d);
      AddDaysNumber(Next(d), k - 1);
    } else if k < 0 {
      PrevNumber(d);
      AddDaysNumber(Prev(d), k + 1);
    }
  }

  // ---------------------------------------------------------------------------
  // Order
  // ---------------------------------------------------------------------------

  /** Calendar order: by year, then month, then day. */
  predicate Before(a: Date, b: Date) {
    a.year < b.year ||
    (a.year == b.year && (a.month < b.month || (a.month == b.month && a.day < b.day)))
  }

  /** A month ends where the next begins, and within its year. */
  lemma {:induction false} MonthEnd(y: int, m: int)
    requires 1 <= m <= 12
    ensures m < 12 ==> DaysBeforeMonth(y, m) + DaysInMonth(y, m) == DaysBeforeMonth(y, m + 1)
    ensures m == 12 ==> DaysBeforeMonth(y, m) + DaysInMonth(y, m) == DaysInYear(y)
  {
  }

  lemma {:induction false} MonthMonotone(y: int, a: int, b: int)
    requires 1 <= a < b <= 12
    ensures DaysBeforeMonth(y, a) + DaysInMonth(y, a) <= DaysBeforeMonth(y, b)
    decreases b - a
  {
    MonthEnd(y, a);
    if a + 1 < b {
      MonthMonotone(y, a + 1, b);
    }
  }

  /** Day numbers follow calendar order. */
  lemma {:induction false} DayNumberOrder(a: Date, b: Date)
    requires Valid(a) && Valid(b) && Before(a, b)
    ensures DayNumber(a) < DayNumber(b)
  {
    if a.year < b.year {
      MonthEnd(a.year, 12);
      if a.month < 12 { MonthMonotone(a.year, a.month, 12); }
      YearStep(a.year);
      YearMonotone(a.year + 1, b.year);
    } else if a.month < b.month {
      MonthMonotone(a.year, a.month, b.month);
    }
  }

  /** A valid date is determined by its day number. */
  lemma {:induction false} DayNumberInjective(a: Date, b: Date)
    requires Valid(a) && Valid(b) && DayNumber(a) == DayNumber(b)
    ensures a == b
  {
    if Before(a, b) { DayNumberOrder(a, b); }
    else if Before(b, a) { DayNumberOrder(b, a); }
  }

  /** `Before` is exactly the order of day numbers. */
  lemma {:induction false} BeforeIffDayNumber(a: Date, b: Date)
    requires Valid(a) && Valid(b)
    ensures Before(a, b) <==> DayNumber(a) < DayNumber(b)
  {
    if Before(a, b) { DayNumberOrder(a, b); }
    else if Before(b, a) { DayNumberOrder(b, a); }
  }

  // ---------------------------------------------------------------------------
  // `new Date(year, monthIndex, day)`
  // ---------------------------------------------------------------------------

  /** JavaScript reads a year argument from 0 to 99 as 1900 + year. */
  function LocalYear(year: int): int {
    if 0 <= year <= 99 then 1900 + year else year
  }

  /** `new Date(year, monthIndex, day)`: month index 0..11 with overflow
      carried into the year, and `day` counted from the first of that month,
      so day 0 is the last day of the previous month. */
  function MakeLocalDate(year: int, monthIndex: int, day: int): (r: Date)
    ensures Valid(r)
  {
    AddDays(FirstOfMonth(year, monthIndex), day - 1)
  }

  /** `new Date(year, monthIndex, day)` lies `day - 1` days after the first of the month. */
  lemma {:induction false} MakeLocalDateNumber(year: int, monthIndex: int, day: int)
    ensures DayNumber(MakeLocalDate(year, monthIndex, day)) == DayNumber(FirstOfMonth(year, monthIndex)) + day - 1
  {
    AddDaysNumber(FirstOfMonth(year, monthIndex), day - 1);
  }

  /** The first day of the (normalised) month `monthIndex` of `year`. */
  function FirstOfMonth(year: int, monthIndex: int): (r: Date)
    ensures Valid(r) && r.day == 1
  {
    Date(LocalYear(year) + monthIndex / 12, monthIndex % 12 + 1, 1)
  }

  /** An in-range day of a month is constructed as itself. */
  lemma {:induction false} MakeLocalDateExact(y: int, m: int, d: int)
    requires !(0 <= y <= 99) && Valid(Date(y, m, d))
    ensures MakeLocalDate(y, m - 1, d) == Date(y, m, d)
  {
    MakeLocalDateNumber(y, m - 1, d);
    DayNumberInjective(MakeLocalDate(y, m - 1, d), Date(y, m, d));
  }

  /** The first of the next month lies `DaysInMonth` days after the first of this one. */
  lemma {:induction false} NextMonthFirst(year: int, monthIndex: int)
    requires 0 <= monthIndex <= 11
    ensures var f := FirstOfMonth(year, monthIndex);
            DayNumber(FirstOfMonth(year, monthIndex + 1)) == DayNumber(f) + DaysInMonth(f.year, f.month)
  {
    var f := FirstOfMonth(year, monthIndex);
    assert monthIndex / 12 == 0 && monthIndex % 12 == monthIndex;
    MonthEnd(f.year, f.month);
    if monthIndex == 11 {
      assert (monthIndex + 1) / 12 == 1 && (monthIndex + 1) % 12 == 0;
      YearStep(f.year);
    } else {
      assert (monthIndex + 1) / 12 == 0 && (monthIndex + 1) % 12 == monthIndex + 1;
    }
  }

  /** `new Date(year, monthIndex + 1, 0)` is the last day of month `monthIndex`. */
  lemma {:induction false} LastOfMonth(year: int, monthIndex: int)
    requires 0 <= monthIndex <= 11
    ensures var f := FirstOfMonth(year, monthIndex);
            MakeLocalDate(year, monthIndex + 1, 0) == Date(f.year, f.month, DaysInMonth(f.year, f.month))
  {
    var f := FirstOfMonth(year, monthIndex);
    NextMonthFirst(year, monthIndex);
    MakeLocalDateNumber(year, monthIndex + 1, 0);
    DayNumberInjective(MakeLocalDate(year, monthIndex + 1, 0), Date(f.year, f.month, DaysInMonth(f.year, f.month)));
  }
}
