/** The trip-window picker of `components/DateRangePicker.tsx`: which month it
    shows, which cells belong to the chosen window, how a cell is styled, which
    clicks reach `onDateClick`, and the guide line under the grid. The grid
    itself is `MonthGrid.BuildMonth`; "today" is a parameter. The `startDate`
    and `endDate` props are date keys or `null`. */
module RangePicker {
  import opened Wrappers
  import opened Text
  import opened CalendarDates
  import opened DateUtils
  import opened MonthGrid

  /** JavaScript truthiness of an optional string prop: `null` and `""` are falsy. */
  predicate IsSet(p: Option<string>) {
    p.Some? && p.value != ""
  }

  /** `isStartDate`: strict equality with the prop, never true for `null`. */
  predicate IsStartDate(startDate: Option<string>, iso: string) {
    startDate == Some(iso)
  }

  /** `isEndDate`: strict equality with the prop, never true for `null`. */
  predicate IsEndDate(endDate: Option<string>, iso: string) {
    endDate == Some(iso)
  }

  /** Inclusive window membership measured in day numbers. */
  predicate InWindow(d: Date, start: Date, end: Date)
    requires Valid(d) && Valid(start) && Valid(end)
  {
    DayNumber(start) <= DayNumber(d) <= DayNumber(end)
  }

  /** `isDateInRange`: false when a bound is missing; otherwise the parsed
      date lies between the parsed bounds, both inclusive. A key that does not
      parse is an invalid `Date`, and every comparison with it is false. */
  function IsDateInRange(startDate: Option<string>, endDate: Option<string>, iso: string): (r: bool)
    ensures r <==> IsSet(startDate) && IsSet(endDate) &&
                   ParseLocalDate(iso).Some? && ParseLocalDate(startDate.value).Some? &&
                   ParseLocalDate(endDate.value).Some? &&
                   InWindow(ParseLocalDate(iso).value, ParseLocalDate(startDate.value).value,
                            ParseLocalDate(endDate.value).value)
  {
    if !IsSet(startDate) || !IsSet(endDate) then false
    else
      match (ParseLocalDate(iso), ParseLocalDate(startDate.value), ParseLocalDate(endDate.value))
      case (Some(d), Some(s), Some(e)) =>
        BeforeIffDayNumber(d, s);
        BeforeIffDayNumber(e, d);
        !Before(d, s) && !Before(e, d)
      case _ => false
  }

  /** On date keys the window is the closed interval of the keys' string order,
      so a window whose end key sorts before its start key holds nothing. */
  lemma {:induction false} KeyWindow(iso: string, s: string, e: string)
    requires IsDateKey(iso) && IsDateKey(s) && IsDateKey(e)
    ensures IsDateInRange(Some(s), Some(e), iso) <==> !Less(iso, s) && !Less(e, iso)
    ensures Less(e, s) ==> !IsDateInRange(Some(s), Some(e), iso)
  {
    FormatOfParse(iso);
    FormatOfParse(s);
    FormatOfParse(e);
    KeyOrder(iso, s);
    KeyOrder(e, iso);
    KeyOrder(e, s);
    BeforeIffDayNumber(KeyDate(iso), KeyDate(s));
    BeforeIffDayNumber(KeyDate(e), KeyDate(iso));
    BeforeIffDayNumber(KeyDate(e), KeyDate(s));
  }

  /** A one-day window holds exactly its own key. */
  lemma {:induction false} SingleDayWindow(iso: string, k: string)
    requires IsDateKey(iso) && IsDateKey(k)
    ensures IsDateInRange(Some(k), Some(k), iso) <==> iso == k
  {
    FormatOfParse(iso);
    FormatOfParse(k);
    KeyOrder(iso, k);
    if IsDateInRange(Some(k), Some(k), iso) {
      DayNumberInjective(KeyDate(iso), KeyDate(k));
    }
  }

  /** `date < today` with `today` at midnight: strictly earlier days only; an
      unparsable key is never in the past. */
  function IsPast(iso: string, today: Date): (r: bool)
    requires Valid(today)
    ensures r <==> ParseLocalDate(iso).Some? && DayNumber(ParseLocalDate(iso).value) < DayNumber(today)
  {
    match ParseLocalDate(iso)
    case Some(d) => BeforeIffDayNumber(d, today); Before(d, today)
    case None => false
  }

  /** The rounding of a start or end cell. */
  datatype Shape = RoundStart | RoundEnd | RoundBoth

  /** The fill of a cell: an endpoint, inside the window, or plain. */
  datatype Fill = Endpoint(shape: Shape) | InRange | Plain

  /** The parts of `getCellStyles` that depend on data. */
  datatype PickerStyle = PickerStyle(past: bool, dimmed: bool, fill: Fill, todayRing: bool)

  /** `getCellStyles(isoDate, isCurrentMonth)`. */
  function CellStyle(startDate: Option<string>, endDate: Option<string>, iso: string,
                     isCurrentMonth: bool, today: Date): (st: PickerStyle)
    requires Valid(today)
    ensures st.past == IsPast(iso, today) && st.dimmed == !isCurrentMonth
    // start and end styling take precedence over the window fill
    ensures st.fill.Endpoint? <==> IsStartDate(startDate, iso) || IsEndDate(endDate, iso)
    ensures st.fill == Endpoint(RoundBoth) <==> startDate == endDate == Some(iso)
    ensures st.fill == InRange <==>
            !IsStartDate(startDate, iso) && !IsEndDate(endDate, iso) && IsDateInRange(startDate, endDate, iso)
    ensures st.todayRing <==> isCurrentMonth && ParseLocalDate(iso) == Some(today)
  {
    var isStart, isEnd := IsStartDate(startDate, iso), IsEndDate(endDate, iso);
    var fill :=
      if isStart || isEnd then
        (if isStart && !isEnd then Endpoint(RoundStart)
         else if isEnd && !isStart then Endpoint(RoundEnd)
         else Endpoint(RoundBoth))
      else if IsDateInRange(startDate, endDate, iso) then InRange
      else Plain;
    PickerStyle(IsPast(iso, today), !isCurrentMonth, fill,
                ParseLocalDate(iso) == Some(today) && isCurrentMonth)
  }

  /** The cell's `onClick`: `onDateClick(day.isoString)` unless the day is in
      the past. Only cells of years 100 and later are considered, so that the
      cell's key parses back to its own date. */
  function ClickTarget(cell: CalendarDay, today: Date): (r: Option<string>)
    requires Valid(cell.date) && Valid(today) && cell.date.year >= 100
    ensures r.Some? ==> r.value == cell.IsoString()
    ensures r.Some? <==> DayNumber(today) <= DayNumber(cell.date)
  {
    ParseOfFormat(cell.date);
    if !IsPast(cell.IsoString(), today) then Some(cell.IsoString()) else None
  }

  /** Today's own cell is clickable. */
  lemma {:induction false} TodayClickable(cell: CalendarDay, today: Date)
    requires Valid(today) && today.year >= 100 && cell.date == today
    ensures ClickTarget(cell, today) == Some(ToLocalIsoString(today))
  {
  }

  /** The guide line under the grid. */
  datatype Guide = ChooseStart | ChooseEnd | RangeChosen | NoGuide

  function GuideMessage(startDate: Option<string>, endDate: Option<string>): (g: Guide)
    ensures g == ChooseStart <==> !IsSet(startDate) && !IsSet(endDate)
    ensures g == ChooseEnd <==> IsSet(startDate) && !IsSet(endDate)
    ensures g == RangeChosen <==> IsSet(startDate) && IsSet(endDate)
    // an end date without a start date shows no guide at all
    ensures g == NoGuide <==> !IsSet(startDate) && IsSet(endDate)
  {
    if !IsSet(startDate) && !IsSet(endDate) then ChooseStart
    else if IsSet(startDate) && !IsSet(endDate) then ChooseEnd
    else if IsSet(startDate) && IsSet(endDate) then RangeChosen
    else NoGuide
  }

  /** The month the `startDate` effect moves to, from the month shown before:
      the first of the start date's month when that month differs, otherwise
      the date shown stays as it is. `None` is an invalid `Date`: an unparsable
      start yields one, and it never equals a month. */
  function Followed(shown: Option<Date>, startDate: Option<string>): (r: Option<Date>)
  {
    if !IsSet(startDate) then shown
    else match ParseLocalDate(startDate.value)
      case None => None
      case Some(s) =>
        var startMonth := MakeLocalDate(s.year, s.month - 1, 1);
        if shown.Some? && shown.value.year == startMonth.year && shown.value.month == startMonth.month
        then shown
        else Some(startMonth)
  }

  /** After the effect a date-key start date's month is shown, on its first day
      unless that month was already shown. */
  lemma {:induction false} FollowedShowsStartMonth(shown: Option<Date>, k: string)
    requires IsDateKey(k)
    ensures var r, s := Followed(shown, Some(k)), KeyDate(k);
            r.Some? && r.value.year == s.year && r.value.month == s.month
    ensures var r, s := Followed(shown, Some(k)), KeyDate(k);
            r != shown ==> r == Some(Date(s.year, s.month, 1))
  {
    var s := KeyDate(k);
    FormatOfParse(k);
    MakeLocalDateExact(s.year, s.month, 1);
  }

  /** Running the effect twice changes nothing more: the second run sees the
      start date's month already shown. */
  lemma {:induction false} FollowedIdempotent(shown: Option<Date>, startDate: Option<string>)
    ensures Followed(Followed(shown, startDate), startDate) == Followed(shown, startDate)
  {
  }

  /** The picker's `currentDate` state. */
  class PickerView {
    var shown: Option<Date>

    /** `useState(new Date())`. */
    constructor (today: Date)
      requires Valid(today)
      ensures shown == Some(today)
    {
      shown := Some(today);
    }

    /** The `useEffect` on `startDate`. */
    method FollowStart(startDate: Option<string>)
      modifies this
      ensures shown == Followed(old(shown), startDate)
    {
      if IsSet(startDate) {
        var start := ParseLocalDate(startDate.value);
        match start
        case None =>
          shown := None;
        case Some(s) =>
          var startMonth := MakeLocalDate(s.year, s.month - 1, 1);
          if shown.None? || shown.value.year != startMonth.year || shown.value.month != startMonth.month {
            shown := Some(startMonth);
          }
      }
    }
  }
}
