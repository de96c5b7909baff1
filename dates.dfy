/**
 * Calendar dates as Python's `datetime.date`: the proleptic Gregorian calendar,
 * years 1..9999, `toordinal`, `weekday`, `date - timedelta(days=1)`,
 * `strftime('%Y-%m-%d')`, `strftime('%Y%m')` and `strptime(s, '%Y-%m-%d')`.
 */
module Dates {
  import opened Wrappers
  import opened Text

  datatype Date = Date(year: int, month: int, day: int)

  predicate IsLeapYear(y: int)
  {
    y % 4 == 0 && (y % 100 != 0 || y % 400 == 0)
  }

  function DaysInMonth(y: int, m: int): (n: int)
    requires 1 <= m <= 12
    ensures 28 <= n <= 31
    ensures n == 29 <==> m == 2 && IsLeapYear(y)
  {
    if m == 2 then (if IsLeapYear(y) then 29 else 28)
    else if m == 4 || m == 6 || m == 9 || m == 11 then 30
    else 31
  }

  function DaysInYear(y: int): int
  {
    if IsLeapYear(y) then 366 else 365
  }

  /** A date Python's `date(year, month, day)` constructor accepts. */
  predicate Valid(d: Date)
  {
    1 <= d.year <= 9999 && 1 <= d.month <= 12 && 1 <= d.day <= DaysInMonth(d.year, d.month)
  }

  /** `date.min`, the one date without a predecessor. */
  const MinDate := Date(1, 1, 1)

  /** Python's `a < b` on dates. */
  predicate Before(a: Date, b: Date)
  {
    a.year < b.year
    || (a.year == b.year && a.month < b.month)
    || (a.year == b.year && a.month == b.month && a.day < b.day)
  }

  predicate AtOrBefore(a: Date, b: Date)
  {
    a == b || Before(a, b)
  }

  /** Days in the years before `y` (CPython's `_days_before_year`, year by year). */
  function DaysBeforeYear(y: int): int
    requires y >= 1
  {
    if y == 1 then 0 else DaysBeforeYear(y - 1) + DaysInYear(y - 1)
  }

  /** Days in the months of year `y` before month `m`. */
  function DaysBeforeMonth(y: int, m: int): int
    requires 1 <= m <= 12
  {
    [0, 31, 59, 90, 120, 151, 181, 212, 243, 273, 304, 334][m - 1]
    + (if m > 2 && IsLeapYear(y) then 1 else 0)
  }

  /** Python's `date.toordinal()`: 0001-01-01 is day 1. */
  function Ordinal(d: Date): int
    requires Valid(d)
  {
    DaysBeforeYear(d.year) + DaysBeforeMonth(d.year, d.month) + d.day
  }

  lemma DaysBeforeYearStep(y: int)
    requires y >= 1
    ensures DaysBeforeYear(y + 1) == DaysBeforeYear(y) + DaysInYear(y)
  {
  }

  lemma {:induction false} DaysBeforeYearGrows(a: int, b: int)
    requires 1 <= a <= b
    ensures DaysBeforeYear(a) + 365 * (b - a) <= DaysBeforeYear(b)
    decreases b - a
  {
    if a < b {
      DaysBeforeYearStep(a);
      DaysBeforeYearGrows(a + 1, b);
    }
  }

  lemma DaysBeforeMonthStep(y: int, m: int)
    requires 1 <= m <= 12
    ensures m < 12 ==> DaysBeforeMonth(y, m) + DaysInMonth(y, m) == DaysBeforeMonth(y, m + 1)
    ensures m == 12 ==> DaysBeforeMonth(y, m) + DaysInMonth(y, m) == DaysInYear(y)
  {
  }

  lemma DaysBeforeMonthGrows(y: int, m1: int, m2: int)
    requires 1 <= m1 < m2 <= 12
    ensures DaysBeforeMonth(y, m1) + DaysInMonth(y, m1) <= DaysBeforeMonth(y, m2)
  {
  }

  /** A date's ordinal lies within its own year. */
  lemma OrdinalWithinYear(d: Date)
    requires Valid(d)
    ensures DaysBeforeYear(d.year) < Ordinal(d) <= DaysBeforeYear(d.year + 1)
  {
    DaysBeforeYearStep(d.year);
    DaysBeforeMonthStep(d.year, d.month);
    if d.month < 12 {
      DaysBeforeMonthGrows(d.year, d.month, 12);
    }
  }

  lemma OrdinalMonotone(a: Date, b: Date)
    requires Valid(a) && Valid(b) && Before(a, b)
    ensures Ordinal(a) < Ordinal(b)
  {
    if a.year < b.year {
      OrdinalWithinYear(a);
      OrdinalWithinYear(b);
      DaysBeforeYearGrows(a.year + 1, b.year);
    } else if a.month < b.month {
      DaysBeforeMonthGrows(a.year, a.month, b.month);
    }
  }

  /** Date order is ordinal order, and distinct dates have distinct ordinals. */
  lemma OrdinalOrder(a: Date, b: Date)
    requires Valid(a) && Valid(b)
    ensures Before(a, b) <==> Ordinal(a) < Ordinal(b)
    ensures a == b <==> Ordinal(a) == Ordinal(b)
  {
    if Before(a, b) {
      OrdinalMonotone(a, b);
    } else if Before(b, a) {
      OrdinalMonotone(b, a);
    }
  }

  /** Python's `d - timedelta(days=1)`; `date.min` has no predecessor (OverflowError). */
  function PrevDay(d: Date): (r: Date)
    requires Valid(d) && d != MinDate
    ensures Valid(r) && Ordinal(r) == Ordinal(d) - 1
  {
    if d.day > 1 then Date(d.year, d.month, d.day - 1)
    else if d.month > 1 then
      DaysBeforeMonthStep(d.year, d.month - 1);
      Date(d.year, d.month - 1, DaysInMonth(d.year, d.month - 1))
    else
      DaysBeforeYearStep(d.year - 1);
      DaysBeforeMonthStep(d.year - 1, 12);
      Date(d.year - 1, 12, 31)
  }

  /** The day before is the latest date strictly before `d`. */
  lemma PrevDayIsLatestBefore(d: Date, e: Date)
    requires Valid(d) && d != MinDate && Valid(e)
    ensures Before(PrevDay(d), d)
    ensures Before(e, d) <==> AtOrBefore(e, PrevDay(d))
  {
    var p := PrevDay(d);
    OrdinalOrder(p, d);
    OrdinalOrder(e, d);
    OrdinalOrder(e, p);
  }

  /** Python's `(b - a).days`. */
  function DaysBetween(a: Date, b: Date): int
    requires Valid(a) && Valid(b)
  {
    Ordinal(b) - Ordinal(a)
  }

  /** The calendar days from `a` to `b`, both included, counted back one day at a time from `b`. */
  function DayCount(a: Date, b: Date): (n: int)
    requires Valid(a) && Valid(b) && AtOrBefore(a, b)
    ensures n >= 1
    decreases Ordinal(b) - Ordinal(a)
  {
    if a == b then 1
    else
      PrevDayIsLatestBefore(b, a);
      OrdinalOrder(a, PrevDay(b));
      1 + DayCount(a, PrevDay(b))
  }

  /** Counting day by day gives Python's `(b - a).days + 1`. */
  lemma {:induction false} DayCountIsDaysBetween(a: Date, b: Date)
    requires Valid(a) && Valid(b) && AtOrBefore(a, b)
    ensures DayCount(a, b) == DaysBetween(a, b) + 1
    decreases Ordinal(b) - Ordinal(a)
  {
    if a != b {
      PrevDayIsLatestBefore(b, a);
      OrdinalOrder(a, PrevDay(b));
      DayCountIsDaysBetween(a, PrevDay(b));
    }
  }

  /** Python's `date.weekday()`: Monday is 0, Sunday is 6 (0001-01-01 was a Monday). */
  function Weekday(d: Date): (w: int)
    requires Valid(d)
    ensures 0 <= w < 7
  {
    (Ordinal(d) + 6) % 7
  }

  /** Consecutive days have consecutive weekdays. */
  lemma WeekdayOfPrevDay(d: Date)
    requires Valid(d) && d != MinDate
    ensures Weekday(d) == (Weekday(PrevDay(d)) + 1) % 7
  {
    SuccessorMod7(Ordinal(PrevDay(d)) + 6);
  }

  lemma SuccessorMod7(x: int)
    ensures (x + 1) % 7 == (x % 7 + 1) % 7
  {
    var q := x / 7;
    assert x == 7 * q + x % 7;
    if x % 7 == 6 {
      assert x + 1 == 7 * (q + 1);
    } else {
      assert x + 1 == 7 * q + (x % 7 + 1);
    }
  }

  /** `strftime('%Y-%m-%d')`, with the year zero-padded to four digits. */
  function FormatIsoDate(d: Date): (s: string)
    requires Valid(d)
    ensures |s| == 10 && s[4] == '-' && s[7] == '-'
  {
    Pad4(d.year) + "-" + Pad2(d.month) + "-" + Pad2(d.day)
  }

  /** `strftime('%Y-%m-%d')` prints ASCII digits and dashes only. */
  lemma IsoTextChars(d: Date)
    requires Valid(d)
    ensures forall i :: 0 <= i < |FormatIsoDate(d)| ==> IsAsciiDigit(FormatIsoDate(d)[i]) || FormatIsoDate(d)[i] == '-'
  {
    var y, m, dd := Pad4(d.year), Pad2(d.month), Pad2(d.day);
    var s := FormatIsoDate(d);
    assert s == y + "-" + m + "-" + dd;
    forall i | 0 <= i < |s|
      ensures IsAsciiDigit(s[i]) || s[i] == '-'
    {
      if i < 4 {
        assert s[i] == y[i];
      } else if 5 <= i < 7 {
        assert s[i] == m[i - 5];
      } else if 8 <= i {
        assert s[i] == dd[i - 8];
      }
    }
  }

  /** `strftime('%Y%m')`. */
  function FormatYearMonth(d: Date): (s: string)
    requires Valid(d)
    ensures |s| == 6 && AllDigits(s)
  {
    Pad4(d.year) + Pad2(d.month)
  }

  /** `strftime('%Y-%m')`. */
  function FormatYearDashMonth(d: Date): (s: string)
    requires Valid(d)
    ensures |s| == 7 && s[4] == '-'
  {
    Pad4(d.year) + "-" + Pad2(d.month)
  }

  /** The text `strptime`'s `%m` directive accepts: `1[0-2]|0[1-9]|[1-9]`. */
  predicate MonthToken(t: string)
  {
    (|t| == 2 && ((t[0] == '1' && '0' <= t[1] <= '2') || (t[0] == '0' && '1' <= t[1] <= '9')))
    || (|t| == 1 && '1' <= t[0] <= '9')
  }

  /** The text `strptime`'s `%d` directive accepts: `3[01]|[12]\d|0[1-9]|[1-9]| [1-9]`. */
  predicate DayToken(t: string)
  {
    (|t| == 2 && ((t[0] == '3' && (t[1] == '0' || t[1] == '1'))
                  || ((t[0] == '1' || t[0] == '2') && IsAsciiDigit(t[1]))
                  || ((t[0] == '0' || t[0] == ' ') && '1' <= t[1] <= '9')))
    || (|t| == 1 && '1' <= t[0] <= '9')
  }

  function TokenValue(t: string): (n: nat)
    requires MonthToken(t) || DayToken(t)
  {
    if t[0] == ' ' then DigitsValue(t[1..]) else DigitsValue(t)
  }

  /** A `%m` token names a month of the year. */
  lemma MonthTokenValue(t: string)
    requires MonthToken(t)
    ensures 1 <= TokenValue(t) <= 12
  {
    if |t| == 2 {
      assert t[..1] == [t[0]] && [t[0]][..0] == "";
      assert DigitsValue([t[0]]) == (t[0] - '0') as int;
      assert DigitsValue(t) == (t[0] - '0') as int * 10 + (t[1] - '0') as int;
    } else {
      assert t[..0] == "";
      assert DigitsValue(t) == (t[0] - '0') as int;
    }
  }

  /** `strftime('%B')`: the English month names. */
  const MonthNames: seq<string> := ["January", "February", "March", "April", "May", "June", "July",
                                    "August", "September", "October", "November", "December"]

  /**
   * `datetime.strptime(s, '%Y-%m-%d').date()`: `None` where Python raises ValueError
   * (text that does not match, leftover text, or a day the month does not have).
   */
  function ParseIsoDate(s: string): (r: Option<Date>)
    ensures r.Some? ==> Valid(r.value)
  {
    if |s| < 8 || !AllDigits(s[..4]) || s[4] != '-' || '-' !in s[5..] then None
    else
      var rest := s[5..];
      var k := IndexOf(rest, '-');
      var mt, dt := rest[..k], rest[k + 1..];
      if !MonthToken(mt) || !DayToken(dt) then None
      else
        var d := Date(DigitsValue(s[..4]), TokenValue(mt), TokenValue(dt));
        if Valid(d) then Some(d) else None
  }

  lemma Pad2Token(n: nat)
    requires 1 <= n <= 31
    ensures n <= 12 ==> MonthToken(Pad2(n)) && TokenValue(Pad2(n)) == n
    ensures DayToken(Pad2(n)) && TokenValue(Pad2(n)) == n
  {
    Pad2Value(n);
  }

  /** Parsing what `strftime('%Y-%m-%d')` printed gives the date back. */
  lemma ParseFormatIsoDate(d: Date)
    requires Valid(d)
    ensures ParseIsoDate(FormatIsoDate(d)) == Some(d)
  {
    var s := FormatIsoDate(d);
    Pad4Value(d.year);
    Pad2Token(d.month);
    Pad2Token(d.day);
    assert s[..4] == Pad4(d.year);
    var rest := s[5..];
    assert rest == Pad2(d.month) + "-" + Pad2(d.day);
    assert rest[2] == '-';
    assert '-' !in rest[..2];
    assert IndexOf(rest, '-') == 2;
    assert rest[..2] == Pad2(d.month);
    assert rest[3..] == Pad2(d.day);
  }

  /** ISO text order is date order: Python's `<` on the printed dates is `Before`, and equal texts are equal dates. */
  lemma IsoTextOrder(a: Date, b: Date)
    requires Valid(a) && Valid(b)
    ensures FormatIsoDate(a) == FormatIsoDate(b) <==> a == b
    ensures StrLess(FormatIsoDate(a), FormatIsoDate(b)) <==> Before(a, b)
  {
    if FormatIsoDate(a) == FormatIsoDate(b) {
      ParseFormatIsoDate(a);
      ParseFormatIsoDate(b);
    }
    var ya, yb := Pad4(a.year), Pad4(b.year);
    var ra, rb := "-" + Pad2(a.month) + "-" + Pad2(a.day), "-" + Pad2(b.month) + "-" + Pad2(b.day);
    assert FormatIsoDate(a) == ya + ra && FormatIsoDate(b) == yb + rb;
    StrLessAppend(ya, yb, ra, rb);
    Pad4Value(a.year);
    Pad4Value(b.year);
    FieldTextOrder(ya, yb, a.year, b.year);
    MonthDayTextOrder(a, b);
  }

  /** Zero-padded fields of one width compare as text exactly as their values compare. */
  lemma FieldTextOrder(s: string, t: string, x: nat, y: nat)
    requires AllDigits(s) && AllDigits(t) && |s| == |t| && DigitsValue(s) == x && DigitsValue(t) == y
    ensures s == t <==> x == y
    ensures StrLess(s, t) <==> x < y
  {
    DigitsValueSame(s, t);
    DigitsLess(s, t);
  }

  /** The `-%m-%d` tails of two printed dates compare as (month, day) pairs. */
  lemma MonthDayTextOrder(a: Date, b: Date)
    requires Valid(a) && Valid(b)
    ensures var ra, rb := "-" + Pad2(a.month) + "-" + Pad2(a.day), "-" + Pad2(b.month) + "-" + Pad2(b.day);
      (ra == rb <==> a.month == b.month && a.day == b.day)
      && (StrLess(ra, rb) <==> a.month < b.month || (a.month == b.month && a.day < b.day))
  {
    var ma, mb := "-" + Pad2(a.month), "-" + Pad2(b.month);
    var da, db := "-" + Pad2(a.day), "-" + Pad2(b.day);
    assert "-" + Pad2(a.month) + "-" + Pad2(a.day) == ma + da;
    assert "-" + Pad2(b.month) + "-" + Pad2(b.day) == mb + db;
    StrLessAppend(ma, mb, da, db);
    AppendSame(ma, mb, da, db);
    Pad2Value(a.month);
    Pad2Value(b.month);
    Pad2Value(a.day);
    Pad2Value(b.day);
    DashedFieldOrder(Pad2(a.month), Pad2(b.month), a.month, b.month);
    DashedFieldOrder(Pad2(a.day), Pad2(b.day), a.day, b.day);
  }

  /** A field behind a dash compares as the field alone. */
  lemma DashedFieldOrder(s: string, t: string, x: nat, y: nat)
    requires AllDigits(s) && AllDigits(t) && |s| == |t| && DigitsValue(s) == x && DigitsValue(t) == y
    ensures "-" + s == "-" + t <==> x == y
    ensures StrLess("-" + s, "-" + t) <==> x < y
  {
    StrLessAppend("-", "-", s, t);
    FieldTextOrder(s, t, x, y);
    assert ("-" + s)[1..] == s && ("-" + t)[1..] == t;
  }

  /**
   * `datetime.strptime(s, '%Y%m')`: four year digits and a `%m` token filling the
   * rest; the day is the first of the month.
   */
  function ParseYearMonth(s: string): (r: Option<Date>)
    ensures r.Some? ==> Valid(r.value) && r.value.day == 1
  {
    if |s| < 5 || !AllDigits(s[..4]) || !MonthToken(s[4..]) then None
    else
      var d := Date(DigitsValue(s[..4]), TokenValue(s[4..]), 1);
      if Valid(d) then Some(d) else None
  }

  /** Parsing what `strftime('%Y%m')` printed gives the first of that month. */
  lemma ParseFormatYearMonth(d: Date)
    requires Valid(d)
    ensures ParseYearMonth(FormatYearMonth(d)) == Some(Date(d.year, d.month, 1))
  {
    var s := FormatYearMonth(d);
    Pad4Value(d.year);
    Pad2Token(d.month);
    assert s[..4] == Pad4(d.year);
    assert s[4..] == Pad2(d.month);
  }
}
