/** The date drill-down filter: a year, a month or a day as a half-open range of instants. */
module DateHierarchy {
  import opened Prelude
  import opened Text

  // ---- The proleptic Gregorian calendar ----

  const MAX_YEAR: int := 9999

  predicate IsLeap(y: int)
  {
    y % 4 == 0 && (y % 100 != 0 || y % 400 == 0)
  }

  function DaysInMonth(y: int, m: int): int
  {
    if m == 2 then (if IsLeap(y) then 29 else 28)
    else if m == 4 || m == 6 || m == 9 || m == 11 then 30
    else 31
  }

  function DaysInYear(y: int): int
  {
    if IsLeap(y) then 366 else 365
  }

  datatype Date = Date(year: int, month: int, day: int)

  predicate IsDate(d: Date)
  {
    1 <= d.year <= MAX_YEAR && 1 <= d.month <= 12 && 1 <= d.day <= DaysInMonth(d.year, d.month)
  }

  /** A date and a time of day, in ticks since midnight. */
  datatype Instant = Instant(date: Date, time: nat)

  predicate DateBefore(a: Date, b: Date)
  {
    a.year < b.year || (a.year == b.year && (a.month < b.month || (a.month == b.month && a.day < b.day)))
  }

  predicate InstantBefore(a: Instant, b: Instant)
  {
    DateBefore(a.date, b.date) || (a.date == b.date && a.time < b.time)
  }

  // ---- Day numbers ----

  function DaysBeforeYear(y: int): int
  {
    var p := y - 1;
    p * 365 + p / 4 - p / 100 + p / 400
  }

  function DaysBeforeMonth(y: int, m: int): int
    requires 1 <= m <= 13
    decreases m
  {
    if m == 1 then 0 else DaysBeforeMonth(y, m - 1) + DaysInMonth(y, m - 1)
  }

  /** The number of the day counted from 0001-01-01, which is day 1. */
  function Ordinal(d: Date): int
    requires 1 <= d.month <= 12
  {
    DaysBeforeYear(d.year) + DaysBeforeMonth(d.year, d.month) + d.day
  }

  lemma QuotientSteps(y: int)
    ensures y / 4 - (y - 1) / 4 == if y % 4 == 0 then 1 else 0
    ensures y / 100 - (y - 1) / 100 == if y % 100 == 0 then 1 else 0
  {
  }

  lemma FourCenturySteps(y: int)
    ensures y / 400 - (y - 1) / 400 == if y % 400 == 0 then 1 else 0
  {
  }

  lemma LeapMultiples(y: int)
    ensures y % 100 == 0 ==> y % 4 == 0
    ensures y % 400 == 0 ==> y % 100 == 0
  {
    if y % 100 == 0 { assert y == 4 * (25 * (y / 100)); }
    if y % 400 == 0 { assert y == 100 * (4 * (y / 400)); }
  }

  lemma YearLength(y: int)
    requires y >= 1
    ensures DaysBeforeYear(y + 1) == DaysBeforeYear(y) + DaysInYear(y)
  {
    QuotientSteps(y);
    FourCenturySteps(y);
    LeapMultiples(y);
  }

  lemma MonthsFillYear(y: int)
    ensures DaysBeforeMonth(y, 13) == DaysInYear(y)
  {
    assert DaysBeforeMonth(y, 4) == 31 + DaysInMonth(y, 2) + 31;
    assert DaysBeforeMonth(y, 7) == DaysBeforeMonth(y, 4) + 91;
    assert DaysBeforeMonth(y, 10) == DaysBeforeMonth(y, 7) + 92;
    assert DaysBeforeMonth(y, 13) == DaysBeforeMonth(y, 10) + 92;
  }

  lemma {:induction false} MonthsGrow(y: int, m: int, m': int)
    requires 1 <= m < m' <= 13
    ensures DaysBeforeMonth(y, m) + DaysInMonth(y, m) <= DaysBeforeMonth(y, m')
    decreases m'
  {
    if m + 1 < m' {
      MonthsGrow(y, m, m' - 1);
    }
  }

  lemma {:induction false} YearsGrow(y: int, y': int)
    requires 1 <= y < y'
    ensures DaysBeforeYear(y) + DaysInYear(y) <= DaysBeforeYear(y')
    decreases y'
  {
    if y + 1 == y' {
      YearLength(y);
    } else {
      YearsGrow(y, y' - 1);
      YearLength(y' - 1);
    }
  }

  /** Day numbers run in calendar order: comparing year, month, day is comparing day numbers. */
  lemma OrdinalOrder(a: Date, b: Date)
    requires IsDate(a) && IsDate(b)
    ensures DateBefore(a, b) <==> Ordinal(a) < Ordinal(b)
    ensures a == b <==> Ordinal(a) == Ordinal(b)
  {
    if DateBefore(a, b) { OrdinalGrows(a, b); }
    if DateBefore(b, a) { OrdinalGrows(b, a); }
  }

  lemma OrdinalGrows(a: Date, b: Date)
    requires IsDate(a) && IsDate(b) && DateBefore(a, b)
    ensures Ordinal(a) < Ordinal(b)
  {
    MonthStart(b);
    if a.year < b.year {
      YearsGrow(a.year, b.year);
      MonthsGrow(a.year, a.month, 13);
      MonthsFillYear(a.year);
    } else if a.month < b.month {
      MonthsGrow(a.year, a.month, b.month);
    }
  }

  lemma MonthStart(d: Date)
    requires IsDate(d)
    ensures DaysBeforeMonth(d.year, d.month) >= 0
  {
    if d.month > 1 {
      MonthsGrow(d.year, 1, d.month);
    }
  }

  /** The day after, unless it is the last day the calendar holds. */
  function NextDay(d: Date): Option<Date>
    requires IsDate(d)
  {
    if d.day < DaysInMonth(d.year, d.month) then Some(Date(d.year, d.month, d.day + 1))
    else if d.month < 12 then Some(Date(d.year, d.month + 1, 1))
    else if d.year < MAX_YEAR then Some(Date(d.year + 1, 1, 1))
    else None
  }

  /** It is the date whose number is one higher. */
  lemma NextDayOrdinal(d: Date)
    requires IsDate(d)
    ensures NextDay(d).Some? ==> IsDate(NextDay(d).value) && Ordinal(NextDay(d).value) == Ordinal(d) + 1
    ensures NextDay(d).None? ==> forall d' :: IsDate(d') ==> Ordinal(d') <= Ordinal(d)
  {
    if NextDay(d).Some? {
      if d.day == DaysInMonth(d.year, d.month) && d.month == 12 {
        YearLength(d.year);
        MonthsFillYear(d.year);
      }
    } else {
      forall d' | IsDate(d') ensures Ordinal(d') <= Ordinal(d) { OrdinalOrder(d, d'); }
    }
  }

  lemma CenturiesRepeat(p: int)
    ensures (p + 400) / 4 == p / 4 + 100 && (p + 400) / 100 == p / 100 + 4 && (p + 400) / 400 == p / 400 + 1
  {
  }

  /** February has 29 days in the Gregorian leap years, and the other months have their usual lengths. */
  lemma MonthsAreGregorian(y: int, m: int)
    requires 1 <= m <= 12
    ensures DaysInMonth(y, m)
         == if m == 2 then (if (y % 4 == 0 && y % 100 != 0) || y % 400 == 0 then 29 else 28)
            else if m in {4, 6, 9, 11} then 30
            else 31
  {
    LeapMultiples(y);
  }

  /** The calendar's fixed points, 0001-01-01 and 1970-01-01, and its cycle of 400 years. */
  lemma CalendarIsGregorian(y: int)
    ensures DaysBeforeYear(1) == 0 && DaysBeforeYear(1970) == 719162
    ensures DaysBeforeYear(y + 400) == DaysBeforeYear(y) + 146097
  {
    CenturiesRepeat(y - 1);
    var p := y - 1;
    assert (y + 400) - 1 == p + 400;
  }

  // ---- Parsing ----

  datatype Range = Range(start: Instant, end: Instant)

  function Midnight(y: int, m: int, d: int): Option<Instant>
  {
    if IsDate(Date(y, m, d)) then Some(Instant(Date(y, m, d), 0)) else None
  }

  function Between(start: Option<Instant>, end: Option<Instant>): Option<Range>
  {
    if start.Some? && end.Some? then Some(Range(start.value, end.value)) else None
  }

  /** `toInt` is the integer parser; anything unparseable or out of range means no filter. */
  function ParseDateHierarchy(value: string, toInt: string -> Option<int>): Option<Range>
  {
    var parts := Split(value, '-');
    if |parts| == 1 && toInt(parts[0]).Some? then
      var y := toInt(parts[0]).value;
      Between(Midnight(y, 1, 1), Midnight(y + 1, 1, 1))
    else if |parts| == 2 && toInt(parts[0]).Some? && toInt(parts[1]).Some? then
      var y, m := toInt(parts[0]).value, toInt(parts[1]).value;
      if !(1 <= m <= 12) then None
      else Between(Midnight(y, m, 1), if m == 12 then Midnight(y + 1, 1, 1) else Midnight(y, m + 1, 1))
    else if |parts| == 3 && toInt(parts[0]).Some? && toInt(parts[1]).Some? && toInt(parts[2]).Some? then
      var y, m, d := toInt(parts[0]).value, toInt(parts[1]).value, toInt(parts[2]).value;
      if !IsDate(Date(y, m, d)) || NextDay(Date(y, m, d)).None? then None
      else Some(Range(Instant(Date(y, m, d), 0), Instant(NextDay(Date(y, m, d)).value, 0)))
    else None
  }

  /** `column >= start AND column < end`. */
  predicate InRange(r: Range, t: Instant)
  {
    !InstantBefore(t, r.start) && InstantBefore(t, r.end)
  }

  /** What a drill-down value asks for. */
  datatype Period = Year(y: int) | Month(y: int, m: int) | Day(y: int, m: int, d: int)

  function PeriodOf(value: string, toInt: string -> Option<int>): Option<Period>
  {
    var parts := Split(value, '-');
    if exists i :: 0 <= i < |parts| && toInt(parts[i]).None? then None
    else match |parts|
      case 1 => Some(Year(toInt(parts[0]).value))
      case 2 => Some(Month(toInt(parts[0]).value, toInt(parts[1]).value))
      case 3 => Some(Day(toInt(parts[0]).value, toInt(parts[1]).value, toInt(parts[2]).value))
      case _ => None
  }

  /** The parts of a value are the year, the month and the day, in this order. */
  lemma PartsAreYearMonthDay(year: string, month: string, day: string, toInt: string -> Option<int>)
    requires Without(year, '-') && Without(month, '-') && Without(day, '-')
    requires toInt(year).Some? && toInt(month).Some? && toInt(day).Some?
    ensures PeriodOf(year, toInt) == Some(Year(toInt(year).value))
    ensures PeriodOf(year + "-" + month, toInt) == Some(Month(toInt(year).value, toInt(month).value))
    ensures PeriodOf(year + "-" + month + "-" + day, toInt)
         == Some(Day(toInt(year).value, toInt(month).value, toInt(day).value))
  {
    SplitOne(year, '-');
    SplitOne(month, '-');
    SplitOne(day, '-');
    SplitFirst(year, month, '-');
    SplitFirst(month, day, '-');
    SplitFirst(year, month + "-" + day, '-');
    assert year + "-" + month + "-" + day == year + "-" + (month + "-" + day);
  }

  /** The instant's own year, month and day are the ones asked for. */
  predicate FallsIn(t: Instant, p: Period)
  {
    match p
    case Year(y) => t.date.year == y
    case Month(y, m) => t.date.year == y && t.date.month == m
    case Day(y, m, d) => t.date == Date(y, m, d)
  }

  predicate InCalendar(p: Period)
  {
    match p
    case Year(y) => 1 <= y <= MAX_YEAR
    case Month(y, m) => 1 <= y <= MAX_YEAR && 1 <= m <= 12
    case Day(y, m, d) => IsDate(Date(y, m, d))
  }

  /** The period's end is beyond the last representable day. */
  predicate EndsTheCalendar(p: Period)
  {
    match p
    case Year(y) => y == MAX_YEAR
    case Month(y, m) => y == MAX_YEAR && m == 12
    case Day(y, m, d) => y == MAX_YEAR && m == 12 && d == 31
  }

  function RangeOf(p: Period): Range
    requires InCalendar(p) && !EndsTheCalendar(p)
  {
    match p
    case Year(y) => Range(Instant(Date(y, 1, 1), 0), Instant(Date(y + 1, 1, 1), 0))
    case Month(y, m) =>
      Range(Instant(Date(y, m, 1), 0), Instant(if m == 12 then Date(y + 1, 1, 1) else Date(y, m + 1, 1), 0))
    case Day(y, m, d) => Range(Instant(Date(y, m, d), 0), Instant(NextDay(Date(y, m, d)).value, 0))
  }

  /** An instant lies in the range of a period iff its year, month and day agree with the period. */
  lemma RangeIsExact(p: Period, t: Instant)
    requires InCalendar(p) && !EndsTheCalendar(p) && IsDate(t.date)
    ensures InRange(RangeOf(p), t) <==> FallsIn(t, p)
  {
  }

  /** A value filters exactly when it names a period of the calendar that is not at its very end. */
  lemma ParseFindsRange(value: string, toInt: string -> Option<int>)
    ensures var p := PeriodOf(value, toInt);
            ParseDateHierarchy(value, toInt) ==
              if p.Some? && InCalendar(p.value) && !EndsTheCalendar(p.value) then Some(RangeOf(p.value)) else None
  {
    var parts := Split(value, '-');
    var p := PeriodOf(value, toInt);
    if p.None? {
      if 1 <= |parts| <= 3 {
        var i :| 0 <= i < |parts| && toInt(parts[i]).None?;
      }
    } else {
      assert forall i :: 0 <= i < |parts| ==> toInt(parts[i]).Some?;
      assert toInt(parts[0]).Some?;
      if |parts| > 1 { assert toInt(parts[1]).Some?; }
      if |parts| > 2 { assert toInt(parts[2]).Some?; }
    }
  }

  /** The filter passes exactly the instants of the period its value names; any other value filters nothing. */
  lemma DrillDownIsExact(value: string, toInt: string -> Option<int>, t: Instant)
    requires IsDate(t.date)
    ensures var p, r := PeriodOf(value, toInt), ParseDateHierarchy(value, toInt);
            && (r.Some? <==> p.Some? && InCalendar(p.value) && !EndsTheCalendar(p.value))
            && (r.Some? ==> (InRange(r.value, t) <==> FallsIn(t, p.value)))
  {
    var p := PeriodOf(value, toInt);
    ParseFindsRange(value, toInt);
    if p.Some? && InCalendar(p.value) && !EndsTheCalendar(p.value) {
      RangeIsExact(p.value, t);
    }
  }

  /** How many days a range spans. */
  function Days(r: Range): int
    requires 1 <= r.start.date.month <= 12 && 1 <= r.end.date.month <= 12
  {
    Ordinal(r.end.date) - Ordinal(r.start.date)
  }

  /** The twelve months tile the year: each begins where the one before ends, and none is left over. */
  lemma MonthsTileYear(y: int, m: int)
    requires 1 <= y < MAX_YEAR && 1 <= m <= 12
    ensures m == 1 ==> RangeOf(Month(y, m)).start == RangeOf(Year(y)).start
    ensures m < 12 ==> RangeOf(Month(y, m)).end == RangeOf(Month(y, m + 1)).start
    ensures m == 12 ==> RangeOf(Month(y, m)).end == RangeOf(Year(y)).end
    ensures Days(RangeOf(Month(y, m))) == DaysInMonth(y, m)
  {
    if m == 12 { YearSpan(y); }
  }

  lemma YearSpan(y: int)
    requires 1 <= y < MAX_YEAR
    ensures Days(RangeOf(Year(y))) == DaysInYear(y) == DaysBeforeMonth(y, 12) + DaysInMonth(y, 12)
  {
    YearLength(y);
    MonthsFillYear(y);
  }

  /** The days tile the month, leap years included. */
  lemma DaysTileMonth(y: int, m: int, d: int)
    requires IsDate(Date(y, m, d)) && y < MAX_YEAR
    ensures d == 1 ==> RangeOf(Day(y, m, d)).start == RangeOf(Month(y, m)).start
    ensures d < DaysInMonth(y, m) ==> RangeOf(Day(y, m, d)).end == RangeOf(Day(y, m, d + 1)).start
    ensures d == DaysInMonth(y, m) ==> RangeOf(Day(y, m, d)).end == RangeOf(Month(y, m)).end
    ensures Days(RangeOf(Day(y, m, d))) == 1
  {
    NextDayOrdinal(Date(y, m, d));
  }
}
