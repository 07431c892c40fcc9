/** `utils/dateUtils.ts`: date keys built from and read back into local
    calendar fields. A date key in its complete form is the calendar date
    complete representation, extended format, of ISO 8601:2004 section
    4.1.2.2: `YYYY-MM-DD`. */
module DateUtils {
  import opened Wrappers
  import opened Text
  import opened CalendarDates

  const MsPerDay: int := 86_400_000

  /** `toLocalISOString`: `${year}-${MM}-${DD}` from the local fields, month
      and day zero-padded to two digits, the year written as `String(year)`. */
  function ToLocalIsoString(d: Date): (s: string)
    requires Valid(d)
  {
    IntToString(d.year) + "-" + Pad2(d.month) + "-" + Pad2(d.day)
  }

  /** For four-digit years the formatted date is a well-formed key of that same date. */
  lemma {:induction false} FormatIsKey(d: Date)
    requires Valid(d) && 1000 <= d.year <= 9999
    ensures IsDateKey(ToLocalIsoString(d)) && KeyDate(ToLocalIsoString(d)) == d
  {
    FourDigitYear(d.year);
    NatToStringRoundTrip(d.year);
    Pad2RoundTrip(d.month);
    Pad2RoundTrip(d.day);
    KeyFields(ToLocalIsoString(d), IntToString(d.year), Pad2(d.month), Pad2(d.day));
  }

  /** A well-formed, valid date key `YYYY-MM-DD` with a four-digit year from 1000 on. */
  predicate IsDateKey(s: string) {
    |s| == 10 && s[4] == '-' && s[7] == '-' &&
    AllDigits(s[..4]) && AllDigits(s[5..7]) && AllDigits(s[8..]) &&
    s[0] != '0' &&
    Valid(Date(DigitsValue(s[..4]), DigitsValue(s[5..7]), DigitsValue(s[8..])))
  }

  /** The date a well-formed key denotes. */
  function KeyDate(s: string): (d: Date)
    requires IsDateKey(s)
    ensures Valid(d) && 1000 <= d.year <= 9999
  {
    LeadingDigitBound(s[..4]);
    Date(DigitsValue(s[..4]), DigitsValue(s[5..7]), DigitsValue(s[8..]))
  }

  /** `parseLocalDate`: split on `-`, read the first three parts with
      `Number`, and build `new Date(year, month - 1, day)`. `None` stands for
      an Invalid Date (a missing or non-numeric part). */
  function ParseLocalDate(s: string): (r: Option<Date>)
    ensures r.Some? ==> Valid(r.value)
  {
    var parts := Split(s, '-');
    if |parts| < 3 then None
    else
      match (ParseNumber(parts[0]), ParseNumber(parts[1]), ParseNumber(parts[2]))
      case (Some(y), Some(m), Some(d)) => Some(MakeLocalDate(y, m as int - 1, d))
      case _ => None
  }

  /** `compareLocalDates`: the difference of the two parsed dates in
      milliseconds; `None` is `NaN` (either side unparseable). */
  function CompareLocalDates(date1: string, date2: string): (r: Option<int>)
    ensures r.Some? <==> ParseLocalDate(date1).Some? && ParseLocalDate(date2).Some?
    ensures r.Some? ==>
      var d1, d2 := ParseLocalDate(date1).value, ParseLocalDate(date2).value;
      (r.value < 0 <==> Before(d1, d2)) && (r.value == 0 <==> d1 == d2) && (r.value > 0 <==> Before(d2, d1))
  {
    match (ParseLocalDate(date1), ParseLocalDate(date2))
    case (Some(d1), Some(d2)) =>
      BeforeIffDayNumber(d1, d2);
      BeforeIffDayNumber(d2, d1);
      assert DayNumber(d1) == DayNumber(d2) ==> d1 == d2 by {
        if DayNumber(d1) == DayNumber(d2) { DayNumberInjective(d1, d2); }
      }
      Some((DayNumber(d1) - DayNumber(d2)) * MsPerDay)
    case _ => None
  }

  // ---------------------------------------------------------------------------
  // Digit strings
  // ---------------------------------------------------------------------------

  lemma {:induction false} LeadingDigitBound(t: string)
    requires AllDigits(t) && t != [] && t[0] != '0'
    ensures DigitsValue(t) >= 1
    ensures |t| == 4 ==> 1000 <= DigitsValue(t) <= 9999
    decreases |t|
  {
    if |t| > 1 {
      LeadingDigitBound(t[..|t| - 1]);
      if |t| == 4 {
        var u := t[..3];
        assert DigitsValue(t) == 10 * DigitsValue(u) + DigitValue(t[3]);
        assert DigitsValue(u) == 10 * DigitsValue(u[..2]) + DigitValue(u[2]);
        assert DigitsValue(u[..2]) == 10 * DigitsValue(u[..1]) + DigitValue(u[1]);
        assert u[..1][..0] == [];
        assert DigitsValue(u[..1]) == DigitValue(u[0]);
      }
    }
  }

  /** Without a leading zero, `String(Number(t)) == t`. */
  lemma {:induction false} DigitsCanonical(t: string)
    requires AllDigits(t) && t != [] && (t[0] != '0' || |t| == 1)
    ensures NatToString(DigitsValue(t)) == t
    decreases |t|
  {
    if |t| == 1 {
      assert t[..0] == [];
    } else {
      var u := t[..|t| - 1];
      LeadingDigitBound(u);
      DigitsCanonical(u);
      var v := DigitsValue(t);
      assert v / 10 == DigitsValue(u) && v % 10 == DigitValue(t[|t| - 1]);
      assert t == u + [t[|t| - 1]];
    }
  }

  /** Two digits are their own zero-padded form. */
  lemma {:induction false} TwoDigitsCanonical(t: string)
    requires AllDigits(t) && |t| == 2
    ensures Pad2(DigitsValue(t)) == t
  {
    assert t[..1][..0] == [];
    var a, b := DigitValue(t[0]), DigitValue(t[1]);
    assert DigitsValue(t[..1]) == 10 * DigitsValue(t[..1][..0]) + DigitValue(t[..1][0]);
    assert DigitsValue(t) == 10 * DigitsValue(t[..1]) + DigitValue(t[1]);
    assert DigitsValue(t) == 10 * a + b;
    if a == 0 {
      assert NatToString(b) == [t[1]];
    } else {
      DigitsCanonical(t);
    }
  }

  lemma {:induction false} FourDigitYear(y: int)
    requires 1000 <= y <= 9999
    ensures |NatToString(y)| == 4 && IntToString(y) == NatToString(y)
  {
    assert NatToString(y) == NatToString(y / 10) + [DigitChar(y % 10)];
    assert NatToString(y / 10) == NatToString(y / 100) + [DigitChar((y / 10) % 10)];
    assert NatToString(y / 100) == NatToString(y / 1000) + [DigitChar((y / 100) % 10)];
  }

  /** The fields of a key assembled from a four-digit year and two two-digit parts. */
  lemma {:induction false} KeyFields(s: string, y: string, m: string, d: string)
    requires s == y + "-" + m + "-" + d
    requires |y| == 4 && |m| == 2 && |d| == 2
    ensures s[..4] == y && s[4] == '-' && s[5..7] == m && s[7] == '-' && s[8..] == d
  {
  }

  // ---------------------------------------------------------------------------
  // Round trips
  // ---------------------------------------------------------------------------

  /** Reading back a key gives the same year, month and day, for every year
      from 100 on (JavaScript would read a year below 100 as 19xx). */
  lemma {:induction false} ParseOfFormat(d: Date)
    requires Valid(d) && d.year >= 100
    ensures ParseLocalDate(ToLocalIsoString(d)) == Some(d)
  {
    var y, m, dd := NatToString(d.year), Pad2(d.month), Pad2(d.day);
    SplitFields(y, m, dd);
    ParseFields(ToLocalIsoString(d), y, m, dd);
    NatToStringRoundTrip(d.year);
    Pad2RoundTrip(d.month);
    Pad2RoundTrip(d.day);
    MakeLocalDateExact(d.year, d.month, d.day);
  }

  /** A key whose `-`-separated fields are digit strings parses as the date they spell. */
  lemma {:induction false} ParseFields(s: string, y: string, m: string, dd: string)
    requires Split(s, '-') == [y, m, dd]
    requires AllDigits(y) && AllDigits(m) && AllDigits(dd)
    ensures ParseLocalDate(s) == Some(MakeLocalDate(DigitsValue(y), DigitsValue(m) - 1, DigitsValue(dd)))
  {
    assert ParseNumber(y) == Some(DigitsValue(y));
    assert ParseNumber(m) == Some(DigitsValue(m));
    assert ParseNumber(dd) == Some(DigitsValue(dd));
  }

  /** Three digit fields joined by `-` split back into those fields. */
  lemma {:induction false} SplitFields(y: string, m: string, dd: string)
    requires AllDigits(y) && AllDigits(m) && AllDigits(dd)
    ensures Split(y + "-" + m + "-" + dd, '-') == [y, m, dd]
  {
    assert '-' !in y && '-' !in m && '-' !in dd by {
      assert forall c :: c in y ==> IsDigit(c);
      assert forall c :: c in m ==> IsDigit(c);
      assert forall c :: c in dd ==> IsDigit(c);
    }
    assert y + "-" + m + "-" + dd == y + ['-'] + (m + ['-'] + dd);
    SplitFirst(y, '-', m + ['-'] + dd);
    SplitFirst(m, '-', dd);
    SplitNoSeparator(dd, '-');
  }


  /** A well-formed key is read as the date it denotes and written back unchanged. */
  lemma {:induction false} FormatOfParse(s: string)
    requires IsDateKey(s)
    ensures ParseLocalDate(s) == Some(KeyDate(s))
    ensures ToLocalIsoString(KeyDate(s)) == s
  {
    ParseOfKey(s);
    FormatOfKey(s);
  }

  lemma {:induction false} ParseOfKey(s: string)
    requires IsDateKey(s)
    ensures ParseLocalDate(s) == Some(KeyDate(s))
  {
    var d := KeyDate(s);
    assert s == s[..4] + "-" + s[5..7] + "-" + s[8..];
    SplitFields(s[..4], s[5..7], s[8..]);
    ParseFields(s, s[..4], s[5..7], s[8..]);
    MakeLocalDateExact(d.year, d.month, d.day);
  }

  lemma {:induction false} FormatOfKey(s: string)
    requires IsDateKey(s)
    ensures ToLocalIsoString(KeyDate(s)) == s
  {
    var d := KeyDate(s);
    LeadingDigitBound(s[..4]);
    DigitsCanonical(s[..4]);
    TwoDigitsCanonical(s[5..7]);
    TwoDigitsCanonical(s[8..]);
    FourDigitYear(d.year);
    assert s == s[..4] + "-" + s[5..7] + "-" + s[8..];
  }


  // ---------------------------------------------------------------------------
  // Order of keys
  // ---------------------------------------------------------------------------

  /** Digit strings of equal length are ordered as their values. */
  lemma {:induction false} DigitsLess(s: string, t: string)
    requires AllDigits(s) && AllDigits(t) && |s| == |t|
    ensures Less(s, t) <==> DigitsValue(s) < DigitsValue(t)
    ensures s == t <==> DigitsValue(s) == DigitsValue(t)
    decreases |s|
  {
    if s == [] {
    } else {
      var s', t' := s[..|s| - 1], t[..|t| - 1];
      var c, d := s[|s| - 1], t[|t| - 1];
      assert s == s' + [c] && t == t' + [d];
      DigitsLess(s', t');
      if s' == t' {
        LessCommonPrefix(s', [c], [d]);
      } else {
        LessDecidedByPrefix(s', t', [c], [d]);
        LessTrichotomy(s', t');
      }
    }
  }

  /** The month-and-day tail `-MM-DD` of a key, compared as a string. */
  lemma {:induction false} TailOrder(ma: string, da: string, mb: string, db: string)
    requires |ma| == |mb|
    ensures Less("-" + ma + "-" + da, "-" + mb + "-" + db) <==>
            if ma != mb then Less(ma, mb) else Less(da, db)
  {
    var dash: string := "-";
    var ea, eb := dash + da, dash + db;
    var ta, tb := ma + ea, mb + eb;
    assert dash + ma + dash + da == dash + ta;
    assert dash + mb + dash + db == dash + tb;
    LessCommonPrefix(dash, ta, tb);
    LessConcat(ma, ea, mb, eb);
    LessCommonPrefix(dash, da, db);
  }

  /** For well-formed keys the default string order is calendar order. */
  lemma {:induction false} KeyOrder(a: string, b: string)
    requires IsDateKey(a) && IsDateKey(b)
    ensures Less(a, b) <==> Before(KeyDate(a), KeyDate(b))
    ensures a == b <==> KeyDate(a) == KeyDate(b)
  {
    var ya, ma, da := a[..4], a[5..7], a[8..];
    var yb, mb, db := b[..4], b[5..7], b[8..];
    DigitsLess(ya, yb);
    DigitsLess(ma, mb);
    DigitsLess(da, db);
    assert a == ya + ("-" + ma + "-" + da);
    assert b == yb + ("-" + mb + "-" + db);
    LessConcat(ya, "-" + ma + "-" + da, yb, "-" + mb + "-" + db);
    TailOrder(ma, da, mb, db);
  }

  /** `compareLocalDates` agrees in sign with the default string order of well-formed keys. */
  lemma {:induction false} CompareAgreesWithStringOrder(a: string, b: string)
    requires IsDateKey(a) && IsDateKey(b)
    ensures CompareLocalDates(a, b).Some?
    ensures CompareLocalDates(a, b).value < 0 <==> Less(a, b)
    ensures CompareLocalDates(a, b).value == 0 <==> a == b
    ensures CompareLocalDates(a, b).value > 0 <==> Less(b, a)
  {
    FormatOfParse(a);
    FormatOfParse(b);
    KeyOrder(a, b);
    KeyOrder(b, a);
  }

  /** `compareLocalDates` is antisymmetric and zero on equal arguments. */
  lemma {:induction false} CompareAntisymmetric(a: string, b: string)
    ensures CompareLocalDates(a, b).Some? ==>
      CompareLocalDates(b, a) == Some(-CompareLocalDates(a, b).value)
    ensures ParseLocalDate(a).Some? ==> CompareLocalDates(a, a) == Some(0)
  {
    match (ParseLocalDate(a), ParseLocalDate(b))
    case (Some(d1), Some(d2)) =>
      assert CompareLocalDates(a, b) == Some((DayNumber(d1) - DayNumber(d2)) * MsPerDay);
      assert CompareLocalDates(b, a) == Some((DayNumber(d2) - DayNumber(d1)) * MsPerDay);
    case _ =>
  }
}
