/** `utils/koreanHolidays.ts`: the table of Korean public holidays from
    December 2025 on, the lookup by date key, and the weekend tests the
    calendars colour their cells with. */
module Holidays {
  import opened Wrappers
  import opened Text
  import opened CalendarDates
  import opened DateUtils
  import opened MonthGrid

  /** An entry of the table; a missing `isSubstitute` is `false`. */
  datatype Holiday = Holiday(date: string, name: string, isSubstitute: bool)

  /** `koreanHolidays`, in order. */
  const KoreanHolidays: seq<Holiday> := [
    Holiday("2025-12-25", "성탄절", false),
    Holiday("2026-01-01", "신정", false),
    Holiday("2026-02-16", "설날", false),
    Holiday("2026-02-17", "설날", false),
    Holiday("2026-02-18", "설날", false),
    Holiday("2026-03-01", "삼일절", false),
    Holiday("2026-03-02", "삼일절 대체공휴일", true),
    Holiday("2026-05-05", "어린이날", false),
    Holiday("2026-05-24", "석가탄신일", false),
    Holiday("2026-05-25", "대체공휴일", true),
    Holiday("2026-06-03", "임시공휴일(전국동시지방선거)", false),
    Holiday("2026-06-06", "현충일", false),
    Holiday("2026-08-15", "광복절", false),
    Holiday("2026-08-17", "대체공휴일", true),
    Holiday("2026-09-24", "추석", false),
    Holiday("2026-09-25", "추석", false),
    Holiday("2026-09-26", "추석", false),
    Holiday("2026-10-03", "개천절", false),
    Holiday("2026-10-05", "대체공휴일", true),
    Holiday("2026-10-09", "한글날", false),
    Holiday("2026-12-25", "성탄절", false)
  ]

  // ---------------------------------------------------------------------------
  // isKoreanHoliday
  // ---------------------------------------------------------------------------

  /** `hs.find(h => h.date === iso)`: the first entry with exactly that date. */
  function FindHoliday(hs: seq<Holiday>, iso: string): (r: Option<nat>)
    ensures r.None? <==> forall i | 0 <= i < |hs| :: hs[i].date != iso
    ensures r.Some? ==> r.value < |hs| && hs[r.value].date == iso &&
                        forall j | 0 <= j < r.value :: hs[j].date != iso
  {
    if hs == [] then None
    else if hs[0].date == iso then Some(0)
    else match FindHoliday(hs[1..], iso)
      case None => None
      case Some(i) => Some(i + 1)
  }

  /** The first entry with the date is found. */
  lemma {:induction false} FindFirst(hs: seq<Holiday>, iso: string, i: nat)
    requires i < |hs| && hs[i].date == iso && forall j | 0 <= j < i :: hs[j].date != iso
    ensures FindHoliday(hs, iso) == Some(i)
  {
    var r := FindHoliday(hs, iso);
    assert r.Some?;
  }

  /** `isKoreanHoliday(isoDate)`: the entry for that date, or `null`. */
  function IsKoreanHoliday(iso: string): (r: Option<Holiday>)
    ensures r.None? <==> forall h | h in KoreanHolidays :: h.date != iso
    ensures r.Some? ==> r.value in KoreanHolidays && r.value.date == iso
  {
    match FindHoliday(KoreanHolidays, iso)
    case None => None
    case Some(i) => Some(KoreanHolidays[i])
  }

  // ---------------------------------------------------------------------------
  // The table is ordered by date
  // ---------------------------------------------------------------------------

  /** The value of a decimal digit character. */
  function Digit(c: char): int {
    c as int - '0' as int
  }

  /** The shape `DDDD-DD-DD` with a non-zero first digit. */
  predicate KeyShape(s: string) {
    |s| == 10 && s[4] == '-' && s[7] == '-' && s[0] != '0' &&
    IsDigit(s[0]) && IsDigit(s[1]) && IsDigit(s[2]) && IsDigit(s[3]) &&
    IsDigit(s[5]) && IsDigit(s[6]) && IsDigit(s[8]) && IsDigit(s[9])
  }

  /** The fields of a key read digit by digit. */
  function KeyFieldsOf(s: string): Date
    requires |s| == 10
  {
    Date(Digit(s[0]) * 1000 + Digit(s[1]) * 100 + Digit(s[2]) * 10 + Digit(s[3]),
         Digit(s[5]) * 10 + Digit(s[6]), Digit(s[8]) * 10 + Digit(s[9]))
  }

  lemma {:induction false} DigitsPrefix(s: string, n: nat)
    requires 0 < n <= |s| && AllDigits(s[..n])
    ensures DigitsValue(s[..n]) == 10 * DigitsValue(s[..n - 1]) + Digit(s[n - 1])
  {
    assert s[..n][..n - 1] == s[..n - 1];
  }

  lemma {:induction false} TwoDigits(t: string)
    requires |t| == 2 && AllDigits(t)
    ensures DigitsValue(t) == 10 * Digit(t[0]) + Digit(t[1])
  {
    assert t[..1][..0] == [];
    assert DigitsValue(t[..1]) == Digit(t[0]);
  }

  /** A string of the key shape naming a valid date is a date key for that date. */
  lemma {:induction false} KeyByDigits(s: string)
    requires KeyShape(s) && Valid(KeyFieldsOf(s))
    ensures IsDateKey(s) && KeyDate(s) == KeyFieldsOf(s)
  {
    YearDigits(s);
    assert AllDigits(s[5..7]) && AllDigits(s[8..]);
    TwoDigits(s[5..7]);
    TwoDigits(s[8..]);
  }

  /** The first four characters of a key read as the year. */
  lemma {:induction false} YearDigits(s: string)
    requires KeyShape(s)
    ensures AllDigits(s[..4])
    ensures DigitsValue(s[..4]) == Digit(s[0]) * 1000 + Digit(s[1]) * 100 + Digit(s[2]) * 10 + Digit(s[3])
  {
    assert AllDigits(s[..4]);
    assert s[..1][..0] == [];
    DigitsPrefix(s, 2);
    DigitsPrefix(s, 3);
    DigitsPrefix(s, 4);
  }

  /** An entry whose date is a key, on a Monday if the entry is a substitute. */
  predicate KeyRow(h: Holiday) {
    KeyShape(h.date) && Valid(KeyFieldsOf(h.date)) &&
    (h.isSubstitute ==> Weekday(KeyFieldsOf(h.date)) == 1)
  }

  /** Entry `i` is a key row, and names a day before the one entry `i + 1` names. */
  predicate RowFacts(i: nat)
    requires i < |KoreanHolidays|
  {
    KeyRow(KoreanHolidays[i]) &&
    (i + 1 < |KoreanHolidays| ==>
       |KoreanHolidays[i + 1].date| == 10 &&
       Before(KeyFieldsOf(KoreanHolidays[i].date), KeyFieldsOf(KoreanHolidays[i + 1].date)))
  }

  /** Weekdays of 2026: 1 January 2026 is a Thursday. */
  lemma {:induction false} Weekday2026(d: Date)
    requires Valid(d) && d.year == 2026
    ensures Weekday(d) == (3 + DaysBeforeMonth(d.year, d.month) + d.day) % 7
  {
    Year2026(d.year);
  }

  lemma {:induction false} Year2026(y: int)
    requires y == 2026
    ensures DaysBeforeYear(y) == 739616
  {
    DaysBeforeYearClosed(y);
    assert 365 * (y - 1) + (y - 1) / 4 - (y - 1) / 100 + (y - 1) / 400 == 739616;
  }

  lemma {:induction false} Row0()
    ensures RowFacts(0)
  {
    assert KeyFieldsOf(KoreanHolidays[0].date) == Date(2025, 12, 25);
    assert KeyFieldsOf(KoreanHolidays[1].date) == Date(2026, 1, 1);
  }

  lemma {:induction false} Row1()
    ensures RowFacts(1)
  {
    assert KeyFieldsOf(KoreanHolidays[1].date) == Date(2026, 1, 1);
    assert KeyFieldsOf(KoreanHolidays[2].date) == Date(2026, 2, 16);
  }

  lemma {:induction false} Row2()
    ensures RowFacts(2)
  {
    assert KeyFieldsOf(KoreanHolidays[2].date) == Date(2026, 2, 16);
    assert KeyFieldsOf(KoreanHolidays[3].date) == Date(2026, 2, 17);
  }

  lemma {:induction false} Row3()
    ensures RowFacts(3)
  {
    assert KeyFieldsOf(KoreanHolidays[3].date) == Date(2026, 2, 17);
    assert KeyFieldsOf(KoreanHolidays[4].date) == Date(2026, 2, 18);
  }

  lemma {:induction false} Row4()
    ensures RowFacts(4)
  {
    assert KeyFieldsOf(KoreanHolidays[4].date) == Date(2026, 2, 18);
    assert KeyFieldsOf(KoreanHolidays[5].date) == Date(2026, 3, 1);
  }

  lemma {:induction false} Row5()
    ensures RowFacts(5)
  {
    assert KeyFieldsOf(KoreanHolidays[5].date) == Date(2026, 3, 1);
    assert KeyFieldsOf(KoreanHolidays[6].date) == Date(2026, 3, 2);
  }

  lemma {:induction false} Row6()
    ensures RowFacts(6)
  {
    assert KeyFieldsOf(KoreanHolidays[6].date) == Date(2026, 3, 2);
    assert KeyFieldsOf(KoreanHolidays[7].date) == Date(2026, 5, 5);
    Weekday2026(KeyFieldsOf(KoreanHolidays[6].date));
  }

  lemma {:induction false} Row7()
    ensures RowFacts(7)
  {
    assert KeyFieldsOf(KoreanHolidays[7].date) == Date(2026, 5, 5);
    assert KeyFieldsOf(KoreanHolidays[8].date) == Date(2026, 5, 24);
  }

  lemma {:induction false} Row8()
    ensures RowFacts(8)
  {
    assert KeyFieldsOf(KoreanHolidays[8].date) == Date(2026, 5, 24);
    assert KeyFieldsOf(KoreanHolidays[9].date) == Date(2026, 5, 25);
  }

  lemma {:induction false} Row9()
    ensures RowFacts(9)
  {
    assert KeyFieldsOf(KoreanHolidays[9].date) == Date(2026, 5, 25);
    assert KeyFieldsOf(KoreanHolidays[10].date) == Date(2026, 6, 3);
    Weekday2026(KeyFieldsOf(KoreanHolidays[9].date));
  }

  lemma {:induction false} Row10()
    ensures RowFacts(10)
  {
    assert KeyFieldsOf(KoreanHolidays[10].date) == Date(2026, 6, 3);
    assert KeyFieldsOf(KoreanHolidays[11].date) == Date(2026, 6, 6);
  }

  lemma {:induction false} Row11()
    ensures RowFacts(11)
  {
    assert KeyFieldsOf(KoreanHolidays[11].date) == Date(2026, 6, 6);
    assert KeyFieldsOf(KoreanHolidays[12].date) == Date(2026, 8, 15);
  }

  lemma {:induction false} Row12()
    ensures RowFacts(12)
  {
    assert KeyFieldsOf(KoreanHolidays[12].date) == Date(2026, 8, 15);
    assert KeyFieldsOf(KoreanHolidays[13].date) == Date(2026, 8, 17);
  }

  lemma {:induction false} Row13()
    ensures RowFacts(13)
  {
    assert KeyFieldsOf(KoreanHolidays[13].date) == Date(2026, 8, 17);
    assert KeyFieldsOf(KoreanHolidays[14].date) == Date(2026, 9, 24);
    Weekday2026(KeyFieldsOf(KoreanHolidays[13].date));
  }

  lemma {:induction false} Row14()
    ensures RowFacts(14)
  {
    assert KeyFieldsOf(KoreanHolidays[14].date) == Date(2026, 9, 24);
    assert KeyFieldsOf(KoreanHolidays[15].date) == Date(2026, 9, 25);
  }

  lemma {:induction false} Row15()
    ensures RowFacts(15)
  {
    assert KeyFieldsOf(KoreanHolidays[15].date) == Date(2026, 9, 25);
    assert KeyFieldsOf(KoreanHolidays[16].date) == Date(2026, 9, 26);
  }

  lemma {:induction false} Row16()
    ensures RowFacts(16)
  {
    assert KeyFieldsOf(KoreanHolidays[16].date) == Date(2026, 9, 26);
    assert KeyFieldsOf(KoreanHolidays[17].date) == Date(2026, 10, 3);
  }

  lemma {:induction false} Row17()
    ensures RowFacts(17)
  {
    assert KeyFieldsOf(KoreanHolidays[17].date) == Date(2026, 10, 3);
    assert KeyFieldsOf(KoreanHolidays[18].date) == Date(2026, 10, 5);
  }

  lemma {:induction false} Row18()
    ensures RowFacts(18)
  {
    assert KeyFieldsOf(KoreanHolidays[18].date) == Date(2026, 10, 5);
    assert KeyFieldsOf(KoreanHolidays[19].date) == Date(2026, 10, 9);
    Weekday2026(KeyFieldsOf(KoreanHolidays[18].date));
  }

  lemma {:induction false} Row19()
    ensures RowFacts(19)
  {
    assert KeyFieldsOf(KoreanHolidays[19].date) == Date(2026, 10, 9);
    assert KeyFieldsOf(KoreanHolidays[20].date) == Date(2026, 12, 25);
  }

  lemma {:induction false} Row20()
    ensures RowFacts(20)
  {
    assert KeyFieldsOf(KoreanHolidays[20].date) == Date(2026, 12, 25);
  }

  /** Every row of the table is a key row ordered before the next. */
  lemma {:induction false} Rows(i: nat)
    requires i < |KoreanHolidays|
    ensures RowFacts(i)
  {
    if i == 0 {
      Row0();
    } else if i == 1 {
      Row1();
    } else if i == 2 {
      Row2();
    } else if i == 3 {
      Row3();
    } else if i == 4 {
      Row4();
    } else if i == 5 {
      Row5();
    } else if i == 6 {
      Row6();
    } else if i == 7 {
      Row7();
    } else if i == 8 {
      Row8();
    } else if i == 9 {
      Row9();
    } else if i == 10 {
      Row10();
    } else if i == 11 {
      Row11();
    } else if i == 12 {
      Row12();
    } else if i == 13 {
      Row13();
    } else if i == 14 {
      Row14();
    } else if i == 15 {
      Row15();
    } else if i == 16 {
      Row16();
    } else if i == 17 {
      Row17();
    } else if i == 18 {
      Row18();
    } else if i == 19 {
      Row19();
    } else {
      Row20();
    }
  }

  /** Earlier rows name earlier days. */
  lemma {:induction false} RowsOrdered(i: nat, j: nat)
    requires i < j < |KoreanHolidays|
    ensures KeyRow(KoreanHolidays[i]) && KeyRow(KoreanHolidays[j])
    ensures DayNumber(KeyFieldsOf(KoreanHolidays[i].date)) < DayNumber(KeyFieldsOf(KoreanHolidays[j].date))
    decreases j
  {
    Rows(j - 1);
    Rows(j);
    BeforeIffDayNumber(KeyFieldsOf(KoreanHolidays[j - 1].date), KeyFieldsOf(KoreanHolidays[j].date));
    if i < j - 1 {
      RowsOrdered(i, j - 1);
    }
  }

  /** The table's dates are well-formed keys in strictly increasing order. */
  lemma {:induction false} TableAscending(i: nat, j: nat)
    requires i < j < |KoreanHolidays|
    ensures IsDateKey(KoreanHolidays[i].date) && IsDateKey(KoreanHolidays[j].date)
    ensures Less(KoreanHolidays[i].date, KoreanHolidays[j].date)
  {
    var a, b := KoreanHolidays[i].date, KoreanHolidays[j].date;
    RowsOrdered(i, j);
    KeyByDigits(a);
    KeyByDigits(b);
    BeforeIffDayNumber(KeyDate(a), KeyDate(b));
    KeyOrder(a, b);
  }

  /** Since the dates increase, at most one entry matches a date, and the
      lookup finds an entry exactly when that entry's date is the one asked. */
  lemma {:induction false} LookupExact(iso: string, i: nat)
    requires i < |KoreanHolidays|
    ensures IsKoreanHoliday(iso) == Some(KoreanHolidays[i]) <==> KoreanHolidays[i].date == iso
  {
    if KoreanHolidays[i].date == iso {
      forall j | 0 <= j < i
        ensures KoreanHolidays[j].date != iso
      {
        TableAscending(j, i);
        LessIrreflexive(iso);
      }
      FindFirst(KoreanHolidays, iso, i);
    }
  }

  // ---------------------------------------------------------------------------
  // isSunday / isSaturday
  // ---------------------------------------------------------------------------

  /** `new Date(isoDate + 'T00:00:00')`: local midnight of the date a key
      names; anything else is an Invalid Date (`None`). */
  function LocalMidnight(iso: string): (r: Option<Date>)
    ensures r.Some? <==> IsDateKey(iso)
    ensures r.Some? ==> Valid(r.value) && ToLocalIsoString(r.value) == iso
  {
    if IsDateKey(iso) then FormatOfKey(iso); Some(KeyDate(iso)) else None
  }

  /** `isSunday`: `getDay() === 0`; an Invalid Date's `NaN` is never 0. */
  function IsSunday(iso: string): (r: bool)
    ensures r <==> LocalMidnight(iso).Some? && Weekday(LocalMidnight(iso).value) == 0
  {
    match LocalMidnight(iso)
    case Some(d) => Weekday(d) == 0
    case None => false
  }

  /** `isSaturday`: `getDay() === 6`. */
  function IsSaturday(iso: string): (r: bool)
    ensures r <==> LocalMidnight(iso).Some? && Weekday(LocalMidnight(iso).value) == 6
  {
    match LocalMidnight(iso)
    case Some(d) => Weekday(d) == 6
    case None => false
  }

  /** No day is both. */
  lemma {:induction false} NeverBoth(iso: string)
    ensures !(IsSunday(iso) && IsSaturday(iso))
  {
  }

  /** In the 42-cell grid, whose columns start on Sunday, the Sunday test
      holds in the first column and the Saturday test in the last. */
  lemma {:induction false} GridWeekends(shown: Date, today: Date, k: int)
    requires Valid(shown) && 0 <= k < GridCells
    requires 1000 <= Grid(shown, today)[k].date.year <= 9999
    ensures IsSunday(Grid(shown, today)[k].IsoString()) <==> k % 7 == 0
    ensures IsSaturday(Grid(shown, today)[k].IsoString()) <==> k % 7 == 6
  {
    var d := Grid(shown, today)[k].date;
    GridWeekday(shown, today, k);
    FormatIsKey(d);
  }

  // ---------------------------------------------------------------------------
  // Substitute holidays fall on Mondays
  // ---------------------------------------------------------------------------

  /** The number of leap years among years 1 to `x`. */
  function LeapYearsUpTo(x: nat): nat {
    if x == 0 then 0 else LeapYearsUpTo(x - 1) + (if IsLeapYear(x) then 1 else 0)
  }

  /** Every year has 365 days plus one for each leap year before it. */
  lemma {:induction false} DaysBeforeYearCount(y: int)
    requires y >= 1
    ensures DaysBeforeYear(y) == 365 * (y - 1) + LeapYearsUpTo(y - 1)
    decreases y
  {
    if y > 1 {
      DaysBeforeYearCount(y - 1);
      YearStep(y - 1);
    }
  }

  /** Multiplying by a positive `k` keeps factors of at least 2 at or above
      `2k` and factors of at most -1 at or below `-k`. */
  lemma {:induction false} MultipleBounds(k: int, t: int)
    requires k > 0
    ensures t >= 2 ==> k * t >= 2 * k
    ensures t <= -1 ==> k * t <= -k
  {
    if t >= 2 {
      assert k * t == k * (t - 2) + 2 * k;
      assert k * (t - 2) >= 0;
    } else if t <= -1 {
      assert k * t == k * (t + 1) - k;
      assert k * (t + 1) <= 0;
    }
  }

  /** A multiple of a positive `k` that lies in `(-k, k]` is `0` or `k`. */
  lemma {:induction false} MultipleInWindow(k: int, t: int)
    requires k > 0 && -k < k * t <= k
    ensures t == 0 || t == 1
  {
    MultipleBounds(k, t);
  }

  /** Going from `x - 1` to `x`, `x / k` grows by one exactly when `k`
      divides `x`. */
  lemma {:induction false} QuotientStep(x: int, k: int)
    requires k > 0
    ensures x / k - (x - 1) / k == (if x % k == 0 then 1 else 0)
  {
    var q1, r1, q0, r0 := x / k, x % k, (x - 1) / k, (x - 1) % k;
    assert x == k * q1 + r1 && 0 <= r1 < k;
    assert x - 1 == k * q0 + r0 && 0 <= r0 < k;
    assert k * (q1 - q0) == k * q1 - k * q0;
    MultipleInWindow(k, q1 - q0);
  }

  /** Going from `x - 1` to `x`, the Gregorian count `x / 4 - x / 100 + x / 400`
      grows by one exactly when `x` is a leap year. */
  lemma {:induction false} LeapCountersStep(x: int)
    ensures (x / 4 - x / 100 + x / 400) - ((x - 1) / 4 - (x - 1) / 100 + (x - 1) / 400)
            == (if IsLeapYear(x) then 1 else 0)
  {
    QuotientStep(x, 4);
    QuotientStep(x, 100);
    QuotientStep(x, 400);
  }

  /** The leap years up to `x`, in closed form. */
  lemma {:induction false} LeapYearsClosed(x: nat)
    ensures LeapYearsUpTo(x) == x / 4 - x / 100 + x / 400
    decreases x
  {
    if x > 0 {
      LeapYearsClosed(x - 1);
      LeapCountersStep(x);
    }
  }

  /** The count of days before 1 January of year `y`, in closed form. */
  lemma {:induction false} DaysBeforeYearClosed(y: int)
    requires y >= 1
    ensures DaysBeforeYear(y) == 365 * (y - 1) + (y - 1) / 4 - (y - 1) / 100 + (y - 1) / 400
  {
    DaysBeforeYearCount(y);
    LeapYearsClosed(y - 1);
  }

  /** The four substitute holidays (2026-03-02, 2026-05-25, 2026-08-17 and
      2026-10-05) each fall on a Monday. */
  lemma {:induction false} SubstituteMondays(i: nat)
    requires i < |KoreanHolidays| && KoreanHolidays[i].isSubstitute
    ensures IsDateKey(KoreanHolidays[i].date) && Weekday(KeyDate(KoreanHolidays[i].date)) == 1
  {
    Rows(i);
    KeyByDigits(KoreanHolidays[i].date);
  }
}
