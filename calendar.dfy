/** The calendar engine: from a `YYYY-MM-DD` string, the length of its month
    and the weekday of the month's first day, as the planner's month grid
    needs them; and the `YYYY-MM-DD` string each day cell of the grid is
    labelled with. Dates are plain proleptic-Gregorian calendar dates; the
    JavaScript `Date` object the source uses is modelled by the calendar
    rules it follows, with no time of day and no time zone. */
module Calendar {

  // ---------------------------------------------------------------------
  // Gregorian calendar rules
  // ---------------------------------------------------------------------

  /** Leap years: every fourth year, except centuries not divisible by 400. */
  predicate IsLeapYear(y: int) {
    y % 4 == 0 && (y % 100 != 0 || y % 400 == 0)
  }

  /** Length of month `m` of year `y`; months count from 0 (January), as in
      JavaScript. */
  function MonthLength(y: int, m: int): int
    requires 0 <= m < 12
  {
    if m == 1 then (if IsLeapYear(y) then 29 else 28)
    else if m == 3 || m == 5 || m == 8 || m == 10 then 30
    else 31
  }

  function YearLength(y: int): int {
    if IsLeapYear(y) then 366 else 365
  }

  /** Days from 1 January of year 0 to 1 January of year `y`: 365 per year
      plus one per leap year in between. */
  function DaysBeforeYear(y: int): int {
    365 * y + (y + 3) / 4 - (y + 99) / 100 + (y + 399) / 400
  }

  /** Days from 1 January of year `y` to the first day of month `m`. */
  function DaysBeforeMonth(y: int, m: int): int
    requires 0 <= m < 12
  {
    var common :=
      match m
      case 0 => 0 case 1 => 31 case 2 => 59 case 3 => 90
      case 4 => 120 case 5 => 151 case 6 => 181 case 7 => 212
      case 8 => 243 case 9 => 273 case 10 => 304 case _ => 334;
    common + (if m >= 2 && IsLeapYear(y) then 1 else 0)
  }

  /** A calendar date; `month` counts from 0 as in JavaScript. */
  datatype CivilDate = CivilDate(year: int, month: int, day: int)

  predicate IsValid(d: CivilDate) {
    0 <= d.month < 12 && 1 <= d.day <= MonthLength(d.year, d.month)
  }

  /** Days elapsed since 1 January of year 0 (day number 0). */
  function DayNumber(d: CivilDate): int
    requires 0 <= d.month < 12
  {
    DaysBeforeYear(d.year) + DaysBeforeMonth(d.year, d.month) + d.day - 1
  }

  /** `getDay()`: 0 is Sunday. 1 January of year 0 was a Saturday. */
  function Weekday(d: CivilDate): (w: int)
    requires 0 <= d.month < 12
    ensures 0 <= w < 7
  {
    (DayNumber(d) + 6) % 7
  }

  /** A year is as long as its leap-day count says. */
  lemma YearStep(y: int)
    ensures DaysBeforeYear(y + 1) == DaysBeforeYear(y) + YearLength(y)
  {
    StepBy4(y);
    StepBy100(y);
    StepBy400(y);
    if y % 100 == 0 {
      CenturyDivisibility(y);
    }
    if y % 400 == 0 {
      QuadCenturyDivisibility(y);
    }
    assert DaysBeforeYear(y + 1) == 365 * y + 365 + (y + 4) / 4 - (y + 100) / 100 + (y + 400) / 400;
  }

  lemma CenturyDivisibility(y: int)
    requires y % 100 == 0
    ensures y % 4 == 0
  {
    var k := y / 100;
    assert y == 4 * (25 * k);
  }

  lemma QuadCenturyDivisibility(y: int)
    requires y % 400 == 0
    ensures y % 100 == 0
  {
    var k := y / 400;
    assert y == 100 * (4 * k);
  }

  lemma StepBy4(y: int)
    ensures (y + 4) / 4 == (y + 3) / 4 + (if y % 4 == 0 then 1 else 0)
  {
  }

  lemma StepBy100(y: int)
    ensures (y + 100) / 100 == (y + 99) / 100 + (if y % 100 == 0 then 1 else 0)
  {
  }

  lemma StepBy400(y: int)
    ensures (y + 400) / 400 == (y + 399) / 400 + (if y % 400 == 0 then 1 else 0)
  {
  }

  /** The twelve month lengths add up to the year's length. */
  lemma MonthsFillYear(y: int)
    ensures DaysBeforeMonth(y, 11) + MonthLength(y, 11) == YearLength(y)
  {
  }

  /** Within a year, each month starts where the previous one ends. */
  lemma MonthStep(y: int, m: int)
    requires 0 <= m < 11
    ensures DaysBeforeMonth(y, m + 1) == DaysBeforeMonth(y, m) + MonthLength(y, m)
  {
  }

  /** Weekdays advance modulo 7. */
  lemma WeekdayShift(n: int, k: int)
    ensures (n + k + 6) % 7 == ((n + 6) % 7 + k) % 7
  {
  }

  /** The first day of the month that follows month `m` of year `y`. */
  function NextMonthStart(y: int, m: int): CivilDate
    requires 0 <= m < 12
  {
    if m == 11 then CivilDate(y + 1, 0, 1) else CivilDate(y, m + 1, 1)
  }

  /** Consecutive months fit together: the next month begins `MonthLength`
      days after this one, so the weekday of its first day is this month's
      starting weekday shifted by the month's length. This is what makes the
      grid of one month continue where the previous one stopped. */
  lemma NextMonthFollows(y: int, m: int)
    requires 0 <= m < 12
    ensures DayNumber(NextMonthStart(y, m)) == DayNumber(CivilDate(y, m, 1)) + MonthLength(y, m)
    ensures Weekday(NextMonthStart(y, m)) == (Weekday(CivilDate(y, m, 1)) + MonthLength(y, m)) % 7
  {
    if m == 11 {
      YearStep(y);
      MonthsFillYear(y);
    } else {
      MonthStep(y, m);
    }
    WeekdayShift(DayNumber(CivilDate(y, m, 1)), MonthLength(y, m));
  }

  /** Known weekdays pin the formula down: 1 January 1970 (the JavaScript
      epoch) was a Thursday, 1 March 2024 a Friday and 1 January 2000 a
      Saturday. */
  lemma KnownWeekdays()
    ensures Weekday(CivilDate(1970, 0, 1)) == 4
    ensures Weekday(CivilDate(2024, 2, 1)) == 5
    ensures Weekday(CivilDate(2000, 0, 1)) == 6
  {
  }

  // ---------------------------------------------------------------------
  // The JavaScript Date constructor, for the forms the planner uses
  // ---------------------------------------------------------------------

  /** `new Date(y, m, d)` reads a year from 0 to 99 as 1900 + y; every
      other year is taken as it is. */
  function ConstructorYear(y: int): (r: int)
    ensures 0 <= y <= 99 ==> r - y == 1900
    ensures r != y <==> 0 <= y <= 99
  {
    if 0 <= y <= 99 then 1900 + y else y
  }

  /** The date `new Date(y, m, d)` denotes, for a month index 0..12 and a
      day 0 or 1: month 12 is January of the following year, and day 0 is
      the last day of the month before. Its day number is the one
      ECMAScript's MakeDay gives: that of the first of the normalised
      month, plus `d - 1`. */
  function MakeDate(y: int, m: int, d: int): (c: CivilDate)
    requires 0 <= m <= 12 && 0 <= d <= 1
    ensures IsValid(c)
    ensures DayNumber(c) == DayNumber(CivilDate(y + m / 12, m % 12, 1)) + d - 1
  {
    var ny := y + m / 12;
    var nm := m % 12;
    if d == 1 then
      CivilDate(ny, nm, 1)
    else if nm == 0 then
      NextMonthFollows(ny - 1, 11);
      CivilDate(ny - 1, 11, MonthLength(ny - 1, 11))
    else
      NextMonthFollows(ny, nm - 1);
      CivilDate(ny, nm - 1, MonthLength(ny, nm - 1))
  }

  // ---------------------------------------------------------------------
  // Decimal digits: parseInt and String on non-negative integers
  // ---------------------------------------------------------------------

  predicate IsDigit(c: char) {
    '0' <= c <= '9'
  }

  predicate AllDigits(s: string) {
    forall i :: 0 <= i < |s| ==> IsDigit(s[i])
  }

  function DigitValue(c: char): int
    requires IsDigit(c)
  {
    c as int - '0' as int
  }

  function DigitChar(n: int): (c: char)
    requires 0 <= n < 10
    ensures IsDigit(c) && DigitValue(c) == n
  {
    ('0' as int + n) as char
  }

  /** `parseInt` of a string of decimal digits, leading zeros allowed. */
  function DecimalValue(s: string): nat
    requires AllDigits(s)
  {
    if s == [] then 0 else 10 * DecimalValue(s[..|s| - 1]) + DigitValue(s[|s| - 1])
  }

  /** `String(n)` for a non-negative integer: digits with no leading zero
      that parse back to `n`. */
  function DecimalString(n: nat): (s: string)
    ensures 1 <= |s| && AllDigits(s)
    ensures |s| > 1 ==> s[0] != '0'
    ensures DecimalValue(s) == n
  {
    if n < 10 then
      [DigitChar(n)]
    else
      var s := DecimalString(n / 10) + [DigitChar(n % 10)];
      assert s[..|s| - 1] == DecimalString(n / 10);
      s
  }

  /** How many digits `String(n)` has, for the ranges a calendar needs. */
  lemma {:induction false} DecimalStringLength(n: nat)
    ensures n < 10 ==> |DecimalString(n)| == 1
    ensures 10 <= n < 100 ==> |DecimalString(n)| == 2
    ensures 100 <= n < 1000 ==> |DecimalString(n)| == 3
    ensures 1000 <= n < 10000 ==> |DecimalString(n)| == 4
  {
    if n >= 10 {
      DecimalStringLength(n / 10);
    }
  }

  /** A digit string with no leading zero is what `String` prints for its
      value. */
  lemma {:induction false} DecimalStringOfValue(s: string)
    requires 1 <= |s| && AllDigits(s) && (|s| > 1 ==> s[0] != '0')
    ensures DecimalString(DecimalValue(s)) == s
  {
    if |s| == 1 {
      assert s == [DigitChar(DigitValue(s[0]))];
    } else {
      var p := s[..|s| - 1];
      assert p[0] == s[0];
      LeadingDigitPositive(p);
      DecimalStringOfValue(p);
      assert DecimalValue(s) / 10 == DecimalValue(p);
      assert DecimalValue(s) % 10 == DigitValue(s[|s| - 1]);
      assert s == p + [s[|s| - 1]];
    }
  }

  lemma {:induction false} LeadingDigitPositive(s: string)
    requires 1 <= |s| && AllDigits(s) && s[0] != '0'
    ensures DecimalValue(s) > 0
  {
    if |s| > 1 {
      var p := s[..|s| - 1];
      assert p[0] == s[0];
      LeadingDigitPositive(p);
    }
  }

  /** `s.padStart(2, '0')`. */
  function PadStart2(s: string): string {
    if |s| == 0 then "00" else if |s| == 1 then "0" + s else s
  }

  /** Padding with a zero keeps the parsed value. */
  lemma PadStart2Value(s: string)
    requires 1 <= |s| && AllDigits(s)
    ensures AllDigits(PadStart2(s))
    ensures |PadStart2(s)| == if |s| == 1 then 2 else |s|
    ensures DecimalValue(PadStart2(s)) == DecimalValue(s)
  {
    if |s| == 1 {
      var p := "0" + s;
      assert p[..1] == "0";
    }
  }

  lemma TwoDigitValue(s: string)
    requires |s| == 2 && AllDigits(s)
    ensures DecimalValue(s) == 10 * DigitValue(s[0]) + DigitValue(s[1])
  {
    OneDigitValue(s[..1]);
  }

  lemma OneDigitValue(s: string)
    requires |s| == 1 && AllDigits(s)
    ensures DecimalValue(s) == DigitValue(s[0])
  {
    assert s[..0] == [];
  }

  lemma FourDigitValue(s: string)
    requires |s| == 4 && AllDigits(s)
    ensures DecimalValue(s) == 1000 * DigitValue(s[0]) + 100 * DigitValue(s[1]) + 10 * DigitValue(s[2]) + DigitValue(s[3])
  {
    var p := s[..3];
    assert p[..2] == s[..2];
    TwoDigitValue(s[..2]);
    assert DecimalValue(p) == 10 * DecimalValue(s[..2]) + DigitValue(s[2]);
  }

  // ---------------------------------------------------------------------
  // ISO dates
  // ---------------------------------------------------------------------

  /** `YYYY-MM-DD` with decimal digits in every position but the two dashes. */
  predicate IsIsoShape(s: string) {
    && |s| == 10 && s[4] == '-' && s[7] == '-'
    && AllDigits(s[..4]) && AllDigits(s[5..7]) && AllDigits(s[8..])
  }

  /** `parseInt(s.split('-')[0])` */
  function YearOf(s: string): (y: nat)
    requires IsIsoShape(s)
    ensures y <= 9999
  {
    FourDigitValue(s[..4]);
    DecimalValue(s[..4])
  }

  /** `parseInt(s.split('-')[1])`, counting January as 1. */
  function MonthOf(s: string): (m: nat)
    requires IsIsoShape(s)
    ensures m <= 99
  {
    TwoDigitValue(s[5..7]);
    DecimalValue(s[5..7])
  }

  /** `parseInt` of the third field. */
  function DayOf(s: string): (d: nat)
    requires IsIsoShape(s)
    ensures d <= 99
  {
    TwoDigitValue(s[8..]);
    DecimalValue(s[8..])
  }

  /** The three fields of `YYYY-MM-DD` are read off their positions. */
  lemma ParseIsoFields(ys: string, ms: string, ds: string)
    requires |ys| == 4 && |ms| == 2 && |ds| == 2
    requires AllDigits(ys) && AllDigits(ms) && AllDigits(ds)
    ensures var c := ys + "-" + ms + "-" + ds;
      && IsIsoShape(c)
      && YearOf(c) == DecimalValue(ys) && MonthOf(c) == DecimalValue(ms) && DayOf(c) == DecimalValue(ds)
  {
    IsoFields(ys, ms, ds);
  }

  /** A `YYYY-MM-DD` string naming a real calendar day. */
  predicate IsIsoDate(s: string) {
    && IsIsoShape(s)
    && 1 <= MonthOf(s) <= 12
    && 1 <= DayOf(s) <= MonthLength(YearOf(s), MonthOf(s) - 1)
  }

  // ---------------------------------------------------------------------
  // The month grid
  // ---------------------------------------------------------------------

  /** What `getDaysInMonth` returns. */
  datatype MonthGrid = MonthGrid(daysInMonth: int, startingDayOfWeek: int, year: int, month: int)

  /** `getDaysInMonth(date)`: year and 0-based month parsed from the string;
      the month's length read off `new Date(year, month + 1, 0)`, the day
      before the first of the next month; the weekday of
      `new Date(year, month, 1)`. Both dates go through the constructor's
      two-digit-year rule. Only the year and month fields are read, so the
      day field may be anything, even past the month's end. */
  function GetDaysInMonth(date: string): (g: MonthGrid)
    requires IsIsoShape(date) && 1 <= MonthOf(date) <= 12
    ensures g.year == YearOf(date) && g.month == MonthOf(date) - 1 && 0 <= g.month < 12
    ensures g.daysInMonth == MonthLength(ConstructorYear(g.year), g.month)
    ensures 28 <= g.daysInMonth <= 31
    ensures 0 <= g.startingDayOfWeek < 7
    ensures g.startingDayOfWeek == Weekday(CivilDate(ConstructorYear(g.year), g.month, 1))
  {
    var year := YearOf(date);
    var month := MonthOf(date) - 1;
    var firstDay := MakeDate(ConstructorYear(year), month, 1);
    var lastDay := MakeDate(ConstructorYear(year), month + 1, 0);
    MonthEnds(ConstructorYear(year), month);
    MonthGrid(lastDay.day, Weekday(firstDay), year, month)
  }

  /** `new Date(y, m, 1)` is the first of month `m`, and
      `new Date(y, m + 1, 0)` is its last day. */
  lemma MonthEnds(y: int, m: int)
    requires 0 <= m < 12
    ensures MakeDate(y, m, 1) == CivilDate(y, m, 1)
    ensures MakeDate(y, m + 1, 0).day == MonthLength(y, m)
  {
    assert (m + 1) / 12 == (if m == 11 then 1 else 0);
    assert (m + 1) % 12 == (if m == 11 then 0 else m + 1);
  }

  /** The grid has the Gregorian month length of the parsed year, except in
      February of year 0, which the constructor reads as 1900. Years 1..99
      become 1901..1999, which have the same leap status. */
  lemma GridHasGregorianLength(date: string)
    requires IsIsoDate(date)
    requires YearOf(date) != 0 || MonthOf(date) != 2
    ensures GetDaysInMonth(date).daysInMonth == MonthLength(YearOf(date), MonthOf(date) - 1)
  {
    var y := YearOf(date);
    if 1 <= y <= 99 {
      assert IsLeapYear(1900 + y) == IsLeapYear(y);
    }
  }

  /** The exception: in `0000-02-DD` the grid shows 28 days although year 0
      is a Gregorian leap year. */
  lemma YearZeroFebruary()
    ensures IsIsoDate("0000-02-10")
    ensures GetDaysInMonth("0000-02-10").daysInMonth == 28
    ensures MonthLength(0, 1) == 29
  {
    YearZeroFebruaryParses();
    assert ConstructorYear(0) == 1900 && !IsLeapYear(1900);
    assert IsLeapYear(0);
  }

  lemma YearZeroFebruaryParses()
    ensures IsIsoDate("0000-02-10") && YearOf("0000-02-10") == 0 && MonthOf("0000-02-10") == 2
  {
    var date := "0000-02-10";
    IsoFields("0000", "02", "10");
    assert date == "0000" + "-" + "02" + "-" + "10";
    FourDigitValue("0000");
    TwoDigitValue("02");
    TwoDigitValue("10");
    assert YearOf(date) == 0 && MonthOf(date) == 2 && DayOf(date) == 10;
  }

  // ---------------------------------------------------------------------
  // Day cells
  // ---------------------------------------------------------------------

  /** The date string of a day cell:
      `${year}-${String(month + 1).padStart(2, '0')}-${String(day).padStart(2, '0')}`.
      The year is printed without padding. */
  function DayCellDate(year: nat, month: nat, day: nat): string {
    DecimalString(year) + "-" + PadStart2(DecimalString(month + 1)) + "-" + PadStart2(DecimalString(day))
  }

  /** Where the three fields of a `YYYY-MM-DD` string sit. */
  lemma IsoFields(ys: string, ms: string, ds: string)
    requires |ys| == 4 && |ms| == 2 && |ds| == 2
    ensures var c := ys + "-" + ms + "-" + ds;
      && |c| == 10 && c[4] == '-' && c[7] == '-'
      && c[..4] == ys && c[5..7] == ms && c[8..] == ds
  {
    var c := ys + "-" + ms + "-" + ds;
    assert c == ys + (['-'] + (ms + (['-'] + ds)));
  }

  /** For four-digit years a day cell's string is a valid ISO date that
      parses back to the cell's year, month and day. */
  lemma DayCellIsIsoDate(year: nat, month: nat, day: nat)
    requires 1000 <= year <= 9999 && month < 12 && 1 <= day <= MonthLength(year, month)
    ensures IsIsoDate(DayCellDate(year, month, day))
    ensures YearOf(DayCellDate(year, month, day)) == year
    ensures MonthOf(DayCellDate(year, month, day)) == month + 1
    ensures DayOf(DayCellDate(year, month, day)) == day
  {
    var ys, ms, ds := DayCellPieces(year, month, day);
    IsoFields(ys, ms, ds);
    var c := DayCellDate(year, month, day);
    assert IsIsoShape(c);
    assert YearOf(c) == year && MonthOf(c) == month + 1 && DayOf(c) == day;
  }

  /** The three pieces of a day cell's string for a four-digit year. */
  lemma DayCellPieces(year: nat, month: nat, day: nat) returns (ys: string, ms: string, ds: string)
    requires 1000 <= year <= 9999 && month < 12 && 1 <= day <= 31
    ensures DayCellDate(year, month, day) == ys + "-" + ms + "-" + ds
    ensures |ys| == 4 && AllDigits(ys) && DecimalValue(ys) == year
    ensures |ms| == 2 && AllDigits(ms) && DecimalValue(ms) == month + 1
    ensures |ds| == 2 && AllDigits(ds) && DecimalValue(ds) == day
  {
    ys, ms, ds := DecimalString(year), PadStart2(DecimalString(month + 1)), PadStart2(DecimalString(day));
    DecimalStringLength(year);
    DecimalStringLength(month + 1);
    DecimalStringLength(day);
    PadStart2Value(DecimalString(month + 1));
    PadStart2Value(DecimalString(day));
  }

  /** For years below 1000 the cell string is shorter than `YYYY-MM-DD`, so
      it is never equal to an ISO date string. */
  lemma DayCellShortYear(year: nat, month: nat, day: nat)
    requires year < 1000 && month < 12 && 1 <= day <= 31
    ensures |DayCellDate(year, month, day)| < 10
    ensures !IsIsoShape(DayCellDate(year, month, day))
  {
    DecimalStringLength(year);
    DecimalStringLength(month + 1);
    DecimalStringLength(day);
  }

  /** The cell of the selected day carries exactly the selected date string
      (for four-digit years), so the selected cell is recognised and shows
      the todos dated on the selected day. */
  lemma SelectedDayCell(date: string)
    requires IsIsoDate(date) && YearOf(date) >= 1000
    ensures DayCellDate(YearOf(date), MonthOf(date) - 1, DayOf(date)) == date
  {
    var ys, ms, ds := date[..4], date[5..7], date[8..];
    FourDigitValue(ys);
    DecimalStringOfValue(ys);
    TwoDigitCell(ms);
    TwoDigitCell(ds);
    IsoFields(ys, ms, ds);
    assert date == ys + "-" + ms + "-" + ds;
  }

  /** A two-digit field with a non-zero value is reproduced by `String` and
      `padStart(2, '0')`. */
  lemma TwoDigitCell(s: string)
    requires |s| == 2 && AllDigits(s) && DecimalValue(s) >= 1
    ensures PadStart2(DecimalString(DecimalValue(s))) == s
  {
    TwoDigitValue(s);
    if s[0] == '0' {
      assert DecimalString(DecimalValue(s)) == [s[1]];
      assert s == "0" + [s[1]];
    } else {
      DecimalStringOfValue(s);
    }
  }

  /** Every cell of a shown month (four-digit year) belongs to that month:
      its grid is the grid of the selected date. */
  lemma DayCellSameMonth(date: string, day: nat)
    requires IsIsoDate(date) && YearOf(date) >= 1000
    requires 1 <= day <= GetDaysInMonth(date).daysInMonth
    ensures IsIsoDate(DayCellDate(YearOf(date), MonthOf(date) - 1, day))
    ensures GetDaysInMonth(DayCellDate(YearOf(date), MonthOf(date) - 1, day)) == GetDaysInMonth(date)
  {
    FourDigitValue(date[..4]);
    DayCellIsIsoDate(YearOf(date), MonthOf(date) - 1, day);
  }
}
