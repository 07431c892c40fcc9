/** The six-week month grid that both calendars build (`daysInMonth` in
    `components/Calendar.tsx` and `components/DateRangePicker.tsx`): the
    trailing days of the previous month up to the first Sunday column, the
    days of the shown month, and the leading days of the next month up to 42
    cells. "Today" is a parameter. */
module MonthGrid {
  import opened CalendarDates
  import opened DateUtils

  /** `CalendarDay`: a cell of the grid. Its `isoString` is always the key of
      its date, so it is derived from the date rather than stored. */
  datatype CalendarDay = CalendarDay(date: Date, isCurrentMonth: bool, isToday: bool)
  {
    function IsoString(): string
      requires Valid(date)
    {
      ToLocalIsoString(date)
    }
  }

  const GridCells: nat := 42

  /** `firstDay = new Date(year, month, 1)` for the month of `shown`. */
  function FirstShown(shown: Date): (f: Date)
    requires Valid(shown)
    ensures Valid(f) && f.day == 1
  {
    MakeLocalDate(shown.year, shown.month - 1, 1)
  }

  /** `startPadding = firstDay.getDay()`: the previous-month cells. */
  function Padding(shown: Date): (p: nat)
    requires Valid(shown)
    ensures p < 7
  {
    Weekday(FirstShown(shown))
  }

  /** The number of days of the shown month. */
  function MonthLength(shown: Date): (n: int)
    requires Valid(shown)
    ensures 28 <= n <= 31
  {
    DaysInMonth(FirstShown(shown).year, FirstShown(shown).month)
  }

  /** `lastDay.getDate()`, with `lastDay = new Date(year, month + 1, 0)`, is the month's length. */
  lemma {:induction false} LastDayIsMonthLength(shown: Date)
    requires Valid(shown)
    ensures MakeLocalDate(shown.year, shown.month, 0).day == MonthLength(shown)
  {
    LastOfMonth(shown.year, shown.month - 1);
  }

  /** The cell for `new Date(year, month, day)`, current exactly for days 1..MonthLength. */
  function DayCell(shown: Date, today: Date, day: int): (c: CalendarDay)
    requires Valid(shown)
    ensures Valid(c.date)
    // only a day of the shown month can be marked as today, and only when it is today
    ensures c.isToday ==> c.isCurrentMonth && c.date == today
  {
    var d := MakeLocalDate(shown.year, shown.month - 1, day);
    var current := 1 <= day <= MonthLength(shown);
    CalendarDay(d, current, current && d == today)
  }

  /** The first `n` cells of the grid: cell `k` is the cell of day `k - Padding + 1`. */
  function Cells(shown: Date, today: Date, n: nat): (g: seq<CalendarDay>)
    requires Valid(shown)
    ensures |g| == n && forall k | 0 <= k < n :: Valid(g[k].date)
  {
    if n == 0 then [] else Cells(shown, today, n - 1) + [DayCell(shown, today, n - Padding(shown))]
  }

  /** The whole grid, as a value: 42 cells starting `Padding` days before the 1st. */
  function Grid(shown: Date, today: Date): (g: seq<CalendarDay>)
    requires Valid(shown)
    ensures |g| == GridCells
  {
    Cells(shown, today, GridCells)
  }

  /** `daysInMonth`: three loops pushing cells built with `new Date(year, month, i)`,
      one method per loop. */
  method BuildMonth(shown: Date, today: Date) returns (days: seq<CalendarDay>)
    requires Valid(shown)
    ensures days == Grid(shown, today)
  {
    days := PushPreviousMonth(shown, today);
    days := PushShownMonth(shown, today, days);
    days := PushNextMonth(shown, today, days);
  }

  /** The first loop: `startPadding = firstDay.getDay()` cells for the days
      `-(startPadding - 1)` .. `0` of the shown month, not current. */
  method PushPreviousMonth(shown: Date, today: Date) returns (days: seq<CalendarDay>)
    requires Valid(shown)
    ensures days == Cells(shown, today, Padding(shown))
  {
    var year, month := shown.year, shown.month - 1;
    var firstDay := MakeLocalDate(year, month, 1);
    var startPadding := Weekday(firstDay);
    assert startPadding == Padding(shown);
    days := [];
    var i: int := startPadding - 1;
    while i >= 0
      invariant -1 <= i < startPadding
      invariant |days| == startPadding - 1 - i
      invariant days == Cells(shown, today, |days|)
    {
      var d := MakeLocalDate(year, month, -i);
      PaddingStep(shown, today, days, i);
      days := days + [CalendarDay(d, false, false)];
      i := i - 1;
    }
  }

  /** The second loop: the days `1` .. `lastDay.getDate()` of the shown month,
      with `lastDay = new Date(year, month + 1, 0)`, current, today marked. */
  method PushShownMonth(shown: Date, today: Date, prefix: seq<CalendarDay>)
    returns (days: seq<CalendarDay>)
    requires Valid(shown) && prefix == Cells(shown, today, Padding(shown))
    ensures |days| == Padding(shown) + MonthLength(shown) && days == Cells(shown, today, |days|)
  {
    var year, month := shown.year, shown.month - 1;
    var lastDay := MakeLocalDate(year, month + 1, 0);
    LastDayIsMonthLength(shown);
    days := prefix;
    var i := 1;
    while i <= lastDay.day
      invariant 1 <= i <= lastDay.day + 1
      invariant |days| == |prefix| + i - 1
      invariant days == Cells(shown, today, |days|)
    {
      var d := MakeLocalDate(year, month, i);
      var isToday := today == d;
      MonthStep(shown, today, days, i);
      days := days + [CalendarDay(d, true, isToday)];
      i := i + 1;
    }
  }

  /** The third loop: `remaining = 42 - days.length` cells for the days
      `1` .. `remaining` of the next month, not current. */
  method PushNextMonth(shown: Date, today: Date, prefix: seq<CalendarDay>)
    returns (days: seq<CalendarDay>)
    requires Valid(shown) && |prefix| == Padding(shown) + MonthLength(shown)
    requires prefix == Cells(shown, today, |prefix|)
    ensures days == Grid(shown, today)
  {
    var year, month := shown.year, shown.month - 1;
    var remaining := GridCells - |prefix|;
    days := prefix;
    var i := 1;
    while i <= remaining
      invariant 1 <= i <= remaining + 1
      invariant |days| == |prefix| + i - 1
      invariant days == Cells(shown, today, |days|)
    {
      var d := MakeLocalDate(year, month + 1, i);
      NextMonthStep(shown, today, days, i);
      days := days + [CalendarDay(d, false, false)];
      i := i + 1;
    }
  }

  /** Appending the cell of the next day extends the prefix of the grid by one cell. */
  lemma {:induction false} PushCell(shown: Date, today: Date, days: seq<CalendarDay>, day: int, c: CalendarDay)
    requires Valid(shown) && days == Cells(shown, today, |days|)
    requires |days| - Padding(shown) + 1 == day && c == DayCell(shown, today, day)
    ensures days + [c] == Cells(shown, today, |days| + 1)
  {
  }

  /** One step of the first loop extends the grid prefix by the cell of day `-i`. */
  lemma {:induction false} PaddingStep(shown: Date, today: Date, days: seq<CalendarDay>, i: int)
    requires Valid(shown) && 0 <= i && |days| == Padding(shown) - 1 - i
    requires days == Cells(shown, today, |days|)
    ensures var d := MakeLocalDate(shown.year, shown.month - 1, -i);
            days + [CalendarDay(d, false, false)] == Cells(shown, today, |days| + 1)
  {
    PaddingCell(shown, today, i);
    PushCell(shown, today, days, -i, DayCell(shown, today, -i));
  }

  /** One step of the second loop extends the grid prefix by the cell of day `i`. */
  lemma {:induction false} MonthStep(shown: Date, today: Date, days: seq<CalendarDay>, i: int)
    requires Valid(shown) && 1 <= i <= MonthLength(shown) && |days| == Padding(shown) + i - 1
    requires days == Cells(shown, today, |days|)
    ensures var d := MakeLocalDate(shown.year, shown.month - 1, i);
            days + [CalendarDay(d, true, today == d)] == Cells(shown, today, |days| + 1)
  {
    MonthCell(shown, today, i);
    PushCell(shown, today, days, i, DayCell(shown, today, i));
  }

  /** One step of the third loop extends the grid prefix by the cell of day `MonthLength + i`. */
  lemma {:induction false} NextMonthStep(shown: Date, today: Date, days: seq<CalendarDay>, i: int)
    requires Valid(shown) && 1 <= i && |days| == Padding(shown) + MonthLength(shown) + i - 1
    requires days == Cells(shown, today, |days|)
    ensures var d := MakeLocalDate(shown.year, shown.month, i);
            days + [CalendarDay(d, false, false)] == Cells(shown, today, |days| + 1)
  {
    NextMonthCell(shown, today, i);
    PushCell(shown, today, days, MonthLength(shown) + i, DayCell(shown, today, MonthLength(shown) + i));
  }

  /** The first loop's cell for `i` is the cell of day `-i`. */
  lemma {:induction false} PaddingCell(shown: Date, today: Date, i: int)
    requires Valid(shown) && 0 <= i
    ensures var d := MakeLocalDate(shown.year, shown.month - 1, -i);
            CalendarDay(d, false, false) == DayCell(shown, today, -i)
  {
  }

  /** The second loop's cell for day `i` is the cell of day `i`. */
  lemma {:induction false} MonthCell(shown: Date, today: Date, i: int)
    requires Valid(shown) && 1 <= i <= MonthLength(shown)
    ensures var d := MakeLocalDate(shown.year, shown.month - 1, i);
            CalendarDay(d, true, today == d) == DayCell(shown, today, i)
  {
  }

  /** `new Date(year, month + 1, i)` is `new Date(year, month, MonthLength + i)`. */
  lemma {:induction false} NextMonthDate(shown: Date, i: int)
    requires Valid(shown)
    ensures MakeLocalDate(shown.year, shown.month, i) == MakeLocalDate(shown.year, shown.month - 1, MonthLength(shown) + i)
  {
    var f := FirstOfMonth(shown.year, shown.month - 1);
    assert FirstShown(shown) == f;
    NextMonthFirst(shown.year, shown.month - 1);
    MakeLocalDateNumber(shown.year, shown.month, i);
    MakeLocalDateNumber(shown.year, shown.month - 1, MonthLength(shown) + i);
    DayNumberInjective(MakeLocalDate(shown.year, shown.month, i), MakeLocalDate(shown.year, shown.month - 1, MonthLength(shown) + i));
  }

  /** The third loop's cell for day `i` of the next month is the cell of day `MonthLength + i`. */
  lemma {:induction false} NextMonthCell(shown: Date, today: Date, i: int)
    requires Valid(shown) && 1 <= i
    ensures var d := MakeLocalDate(shown.year, shown.month, i);
            CalendarDay(d, false, false) == DayCell(shown, today, MonthLength(shown) + i)
  {
    NextMonthDate(shown, i);
  }

  // ---------------------------------------------------------------------------
  // Shape of the grid
  // ---------------------------------------------------------------------------

  /** Cell `k` of the grid is the cell of day `k - Padding + 1`. */
  lemma {:induction false} GridAt(shown: Date, today: Date, k: int)
    requires Valid(shown) && 0 <= k < GridCells
    ensures Grid(shown, today)[k] == DayCell(shown, today, k - Padding(shown) + 1)
  {
    CellsAt(shown, today, GridCells, k);
  }

  lemma {:induction false} CellsAt(shown: Date, today: Date, n: nat, k: int)
    requires Valid(shown) && 0 <= k < n
    ensures Cells(shown, today, n)[k] == DayCell(shown, today, k - Padding(shown) + 1)
  {
    if k < n - 1 {
      CellsAt(shown, today, n - 1, k);
    }
  }

  /** The cell of day `day` lies `day - 1` days after the 1st of the shown month. */
  lemma {:induction false} DayCellNumber(shown: Date, today: Date, day: int)
    requires Valid(shown)
    ensures DayNumber(DayCell(shown, today, day).date) == DayNumber(FirstShown(shown)) + day - 1
  {
    MakeLocalDateNumber(shown.year, shown.month - 1, day);
    MakeLocalDateNumber(shown.year, shown.month - 1, 1);
  }

  /** The padding before the 1st is its weekday, and at least five next-month cells follow the month. */
  lemma {:induction false} GridPadding(shown: Date)
    requires Valid(shown)
    ensures Padding(shown) == Weekday(FirstShown(shown))
    ensures Padding(shown) + MonthLength(shown) + 5 <= GridCells
  {
  }

  /** Cells are consecutive calendar days, across month and year ends. */
  lemma {:induction false} GridConsecutive(shown: Date, today: Date, k: int)
    requires Valid(shown) && 0 <= k < GridCells - 1
    ensures Grid(shown, today)[k + 1].date == Next(Grid(shown, today)[k].date)
  {
    GridAt(shown, today, k);
    GridAt(shown, today, k + 1);
    DayCellConsecutive(shown, today, k - Padding(shown) + 1);
  }

  lemma {:induction false} DayCellConsecutive(shown: Date, today: Date, day: int)
    requires Valid(shown)
    ensures DayCell(shown, today, day + 1).date == Next(DayCell(shown, today, day).date)
  {
    var a, b := DayCell(shown, today, day).date, DayCell(shown, today, day + 1).date;
    DayCellNumber(shown, today, day);
    DayCellNumber(shown, today, day + 1);
    NextNumber(a);
    DayNumberInjective(b, Next(a));
  }

  /** Column `k % 7` is the weekday, 0 being Sunday. */
  lemma {:induction false} GridWeekday(shown: Date, today: Date, k: int)
    requires Valid(shown) && 0 <= k < GridCells
    ensures Weekday(Grid(shown, today)[k].date) == k % 7
  {
    GridAt(shown, today, k);
    DayCellNumber(shown, today, k - Padding(shown) + 1);
    ColumnShift(DayNumber(FirstShown(shown)) + 1, k);
  }

  lemma {:induction false} ColumnShift(n: int, k: int)
    ensures (n + k - n % 7) % 7 == k % 7
  {
    assert n - n % 7 == 7 * (n / 7);
  }

  /** Exactly the cells holding days of the shown month are current-month cells,
      and the current-month cells hold the days 1..MonthLength in order. */
  lemma {:induction false} GridCurrentMonth(shown: Date, today: Date, k: int)
    requires Valid(shown) && 0 <= k < GridCells
    ensures var c, f := Grid(shown, today)[k], FirstShown(shown);
            c.isCurrentMonth <==> c.date.year == f.year && c.date.month == f.month
    ensures var c, f := Grid(shown, today)[k], FirstShown(shown);
            c.isCurrentMonth ==> c.date == Date(f.year, f.month, k - Padding(shown) + 1)
  {
    GridAt(shown, today, k);
    DayCellCurrent(shown, today, k - Padding(shown) + 1);
  }

  lemma {:induction false} DayCellCurrent(shown: Date, today: Date, day: int)
    requires Valid(shown)
    ensures var c, f := DayCell(shown, today, day), FirstShown(shown);
            c.isCurrentMonth <==> c.date.year == f.year && c.date.month == f.month
    ensures var c, f := DayCell(shown, today, day), FirstShown(shown);
            c.isCurrentMonth ==> c.date == Date(f.year, f.month, day)
  {
    var c, f := DayCell(shown, today, day), FirstShown(shown);
    DayCellNumber(shown, today, day);
    if c.date.year == f.year && c.date.month == f.month {
      assert DayNumber(c.date) == DayNumber(f) + c.date.day - 1;
    }
    if c.isCurrentMonth {
      DayNumberInjective(c.date, Date(f.year, f.month, day));
    }
  }

  /** At most one cell is marked today, and it is a current-month cell. */
  lemma {:induction false} GridTodayUnique(shown: Date, today: Date, j: int, k: int)
    requires Valid(shown) && 0 <= j < GridCells && 0 <= k < GridCells
    requires Grid(shown, today)[j].isToday && Grid(shown, today)[k].isToday
    ensures j == k && Grid(shown, today)[k].isCurrentMonth
  {
    GridAt(shown, today, j);
    GridAt(shown, today, k);
    DayCellNumber(shown, today, j - Padding(shown) + 1);
    DayCellNumber(shown, today, k - Padding(shown) + 1);
  }
}
