/**
 * UTC calendar arithmetic as JavaScript's `Date` performs it, for the instants
 * the analytics router uses: every timestamp there is a day at 02:00:00.000Z,
 * so a timestamp is represented by its calendar date.
 */
module Calendar {
  import opened Wrappers
  import opened Text

  datatype Date = Date(year: int, month: int, day: int)

  datatype YearMonth = YearMonth(year: int, month: int)

  /** Proleptic Gregorian leap years. */
  predicate IsLeapYear(y: int) {
    y % 4 == 0 && (y % 100 != 0 || y % 400 == 0)
  }

  function DaysInYear(y: int): int {
    if IsLeapYear(y) then 366 else 365
  }

  function DaysInMonth(y: int, m: int): (n: int)
    requires 1 <= m <= 12
    ensures 28 <= n <= 31
  {
    if m == 2 then (if IsLeapYear(y) then 29 else 28)
    else if m == 4 || m == 6 || m == 9 || m == 11 then 30
    else 31
  }

  predicate ValidDate(d: Date) {
    1 <= d.month <= 12 && 1 <= d.day <= DaysInMonth(d.year, d.month)
  }

  /** Days of year `y` before the first of month `m`. */
  function DaysBeforeMonth(y: int, m: int): int
    requires 1 <= m <= 12
  {
    [0, 31, 59, 90, 120, 151, 181, 212, 243, 273, 304, 334][m - 1] + (if m > 2 && IsLeapYear(y) then 1 else 0)
  }

  /** ECMAScript's DayFromYear: the day number of January 1 of `y`, day 0 being 1970-01-01. */
  function DayFromYear(y: int): int {
    365 * (y - 1970) + LeapDaysBefore(y)
  }

  /** The leap days ECMAScript's DayFromYear counts between 1970 and January 1 of `y`. */
  function LeapDaysBefore(y: int): int {
    (y - 1969) / 4 - (y - 1901) / 100 + (y - 1601) / 400
  }

  /** The day number of a date: whole days since 1970-01-01 (ECMAScript's Day(t)). */
  function DayNumber(d: Date): int
    requires 1 <= d.month <= 12
  {
    DayFromYear(d.year) + DaysBeforeMonth(d.year, d.month) + d.day - 1
  }

  function FirstDay(ym: YearMonth): Date {
    Date(ym.year, ym.month, 1)
  }

  function NextMonth(ym: YearMonth): YearMonth {
    if ym.month == 12 then YearMonth(ym.year + 1, 1) else YearMonth(ym.year, ym.month + 1)
  }

  function PrevMonth(ym: YearMonth): YearMonth {
    if ym.month == 1 then YearMonth(ym.year - 1, 12) else YearMonth(ym.year, ym.month - 1)
  }

  // ---------------------------------------------------------------------------
  // Normalisation (ECMAScript MakeDay)

  /**
   * The date that lies `dt - 1` days after the first of month `m` of year `y`,
   * for any integer `dt`: day numbers outside the month roll into the
   * neighbouring months and years, as `setUTCDate` and `setUTCMonth` do.
   */
  function Normalize(y: int, m: int, dt: int): (r: Date)
    requires 1 <= m <= 12
    ensures ValidDate(r)
    ensures 1 <= dt <= DaysInMonth(y, m) ==> r == Date(y, m, dt)
    decreases (if dt < 1 then 1 else 0), (if dt < 1 then -dt else dt)
  {
    if dt < 1 then
      var p := PrevMonth(YearMonth(y, m));
      Normalize(p.year, p.month, dt + DaysInMonth(p.year, p.month))
    else if dt > DaysInMonth(y, m) then
      var n := NextMonth(YearMonth(y, m));
      Normalize(n.year, n.month, dt - DaysInMonth(y, m))
    else Date(y, m, dt)
  }

  /** `d.setUTCDate(dt)` */
  function SetUTCDate(d: Date, dt: int): Date
    requires 1 <= d.month <= 12
  {
    Normalize(d.year, d.month, dt)
  }

  /** `d.setUTCMonth(m0)` with a zero-based month `m0` of any size or sign. */
  function SetUTCMonth(d: Date, m0: int): Date {
    Normalize(d.year + m0 / 12, m0 % 12 + 1, d.day)
  }

  // ---------------------------------------------------------------------------
  // Day numbers

  lemma DivStep4(a: int)
    ensures (a + 1) / 4 == a / 4 + (if (a + 1) % 4 == 0 then 1 else 0)
  {
    var q, r := a / 4, a % 4;
    assert a == 4 * q + r;
    if r == 3 { assert a + 1 == 4 * (q + 1); } else { assert a + 1 == 4 * q + (r + 1); }
  }

  lemma DivStep100(a: int)
    ensures (a + 1) / 100 == a / 100 + (if (a + 1) % 100 == 0 then 1 else 0)
  {
    var q, r := a / 100, a % 100;
    assert a == 100 * q + r;
    if r == 99 { assert a + 1 == 100 * (q + 1); } else { assert a + 1 == 100 * q + (r + 1); }
  }

  lemma DivStep400(a: int)
    ensures (a + 1) / 400 == a / 400 + (if (a + 1) % 400 == 0 then 1 else 0)
  {
    var q, r := a / 400, a % 400;
    assert a == 400 * q + r;
    if r == 399 { assert a + 1 == 400 * (q + 1); } else { assert a + 1 == 400 * q + (r + 1); }
  }

  lemma ShiftMod4(y: int)
    ensures (y - 1968) % 4 == y % 4
  {
    var p, r := y / 4, y % 4;
    assert y - 1968 == 4 * (p - 492) + r;
  }

  lemma ShiftMod100(y: int)
    ensures (y - 1900) % 100 == y % 100
  {
    var p, r := y / 100, y % 100;
    assert y - 1900 == 100 * (p - 19) + r;
  }

  lemma ShiftMod400(y: int)
    ensures (y - 1600) % 400 == y % 400
  {
    var p, r := y / 400, y % 400;
    assert y - 1600 == 400 * (p - 4) + r;
  }

  /** Crossing from year `y` to `y + 1` adds one to the count of years divisible by 4 exactly when `y` is. */
  lemma QuarterStep(y: int)
    ensures ((y + 1) - 1969) / 4 - (y - 1969) / 4 == (if y % 4 == 0 then 1 else 0)
  {
    DivStep4(y - 1969);
    ShiftMod4(y);
  }

  lemma CenturyStep(y: int)
    ensures ((y + 1) - 1901) / 100 - (y - 1901) / 100 == (if y % 100 == 0 then 1 else 0)
  {
    DivStep100(y - 1901);
    ShiftMod100(y);
  }

  lemma QuadCenturyStep(y: int)
    ensures ((y + 1) - 1601) / 400 - (y - 1601) / 400 == (if y % 400 == 0 then 1 else 0)
  {
    DivStep400(y - 1601);
    ShiftMod400(y);
  }

  lemma CenturyIsQuarter(y: int)
    ensures y % 100 == 0 ==> y % 4 == 0
  {
    if y % 100 == 0 {
      assert y == 4 * (25 * (y / 100));
    }
  }

  lemma QuadCenturyIsCentury(y: int)
    ensures y % 400 == 0 ==> y % 100 == 0
  {
    if y % 400 == 0 {
      assert y == 100 * (4 * (y / 400));
    }
  }

  /** Crossing into year `y + 1` counts one more leap day exactly when `y` is a leap year. */
  lemma LeapStep(y: int)
    ensures LeapDaysBefore(y + 1) == LeapDaysBefore(y) + (if IsLeapYear(y) then 1 else 0)
  {
    QuarterStep(y);
    CenturyStep(y);
    QuadCenturyStep(y);
    CenturyIsQuarter(y);
    QuadCenturyIsCentury(y);
  }

  /** January 1 of the next year is `DaysInYear` days after January 1 of this one. */
  lemma YearStep(y: int)
    ensures DayFromYear(y + 1) == DayFromYear(y) + DaysInYear(y)
  {
    LeapStep(y);
  }

  /** The first of the next month is exactly `DaysInMonth` days after the first of this one. */
  lemma MonthStep(ym: YearMonth)
    requires 1 <= ym.month <= 12
    ensures DayNumber(FirstDay(NextMonth(ym))) == DayNumber(FirstDay(ym)) + DaysInMonth(ym.year, ym.month)
  {
    if ym.month == 12 {
      YearStep(ym.year);
    }
  }

  lemma {:induction false} NormalizeDayNumber(y: int, m: int, dt: int)
    requires 1 <= m <= 12
    ensures DayNumber(Normalize(y, m, dt)) == DayNumber(Date(y, m, 1)) + dt - 1
    decreases (if dt < 1 then 1 else 0), (if dt < 1 then -dt else dt)
  {
    if dt < 1 {
      var p := PrevMonth(YearMonth(y, m));
      assert NextMonth(p) == YearMonth(y, m);
      MonthStep(p);
      NormalizeDayNumber(p.year, p.month, dt + DaysInMonth(p.year, p.month));
    } else if dt > DaysInMonth(y, m) {
      var n := NextMonth(YearMonth(y, m));
      MonthStep(YearMonth(y, m));
      NormalizeDayNumber(n.year, n.month, dt - DaysInMonth(y, m));
    }
  }

  /** Setting the day of the month to the current day plus `n` moves a valid date by exactly `n` days. */
  lemma SetUTCDateShifts(d: Date, n: int)
    requires ValidDate(d)
    ensures DayNumber(SetUTCDate(d, d.day + n)) == DayNumber(d) + n
  {
    NormalizeDayNumber(d.year, d.month, d.day + n);
  }

  lemma {:induction false} DayFromYearMonotone(y1: int, y2: int)
    requires y1 <= y2
    ensures DayFromYear(y1) <= DayFromYear(y2)
    decreases y2 - y1
  {
    if y1 < y2 {
      YearStep(y1);
      DayFromYearMonotone(y1 + 1, y2);
    }
  }

  /** Lexicographic order on (year, month, day). */
  predicate Before(a: Date, b: Date) {
    a.year < b.year || (a.year == b.year && (a.month < b.month || (a.month == b.month && a.day < b.day)))
  }

  lemma BeforeDayNumber(a: Date, b: Date)
    requires ValidDate(a) && ValidDate(b) && Before(a, b)
    ensures DayNumber(a) < DayNumber(b)
  {
    if a.year < b.year {
      YearStep(a.year);
      DayFromYearMonotone(a.year + 1, b.year);
      assert DaysBeforeMonth(a.year, a.month) + DaysInMonth(a.year, a.month) <= DaysInYear(a.year);
    } else if a.month < b.month {
      assert DaysBeforeMonth(a.year, a.month) + DaysInMonth(a.year, a.month) <= DaysBeforeMonth(b.year, b.month);
    }
  }

  /** Calendar order and day-number order agree on valid dates. */
  lemma DayNumberOrder(a: Date, b: Date)
    requires ValidDate(a) && ValidDate(b)
    ensures Before(a, b) <==> DayNumber(a) < DayNumber(b)
    ensures a == b <==> DayNumber(a) == DayNumber(b)
  {
    if Before(a, b) {
      BeforeDayNumber(a, b);
    } else if Before(b, a) {
      BeforeDayNumber(b, a);
    }
  }

  // ---------------------------------------------------------------------------
  // Month arithmetic

  /** Months since January of year 0. */
  function MonthIndex(ym: YearMonth): int {
    ym.year * 12 + ym.month - 1
  }

  function MonthFromIndex(i: int): (ym: YearMonth)
    ensures 1 <= ym.month <= 12
  {
    YearMonth(i / 12, i % 12 + 1)
  }

  lemma DivShift12(y: int, k: int)
    ensures (12 * y + k) / 12 == y + k / 12 && (12 * y + k) % 12 == k % 12
  {
    var q, r := k / 12, k % 12;
    assert 12 * y + k == 12 * (y + q) + r;
  }

  /** Month indices number the months one to one. */
  lemma MonthIndexRoundTrip(ym: YearMonth, i: int)
    ensures MonthIndex(MonthFromIndex(i)) == i
    ensures 1 <= ym.month <= 12 ==> MonthFromIndex(MonthIndex(ym)) == ym
  {
    DivShift12(ym.year, ym.month - 1);
  }

  /** `NextMonth` and `PrevMonth` step the month index by one, rolling the year over. */
  lemma NeighbourMonths(ym: YearMonth)
    requires 1 <= ym.month <= 12
    ensures NextMonth(ym) == MonthFromIndex(MonthIndex(ym) + 1)
    ensures PrevMonth(ym) == MonthFromIndex(MonthIndex(ym) - 1)
    ensures NextMonth(PrevMonth(ym)) == ym && PrevMonth(NextMonth(ym)) == ym
  {
    DivShift12(ym.year, ym.month);
    DivShift12(ym.year, ym.month - 2);
  }

  /**
   * Setting the month to the current month plus `n` targets the month `n` months on and keeps
   * the day of the month, which rolls into the following month when the
   * target month is shorter.
   */
  lemma SetUTCMonthShifts(d: Date, n: int)
    requires ValidDate(d)
    ensures var t := MonthFromIndex(MonthIndex(YearMonth(d.year, d.month)) + n);
      ValidDate(SetUTCMonth(d, d.month - 1 + n)) &&
      DayNumber(SetUTCMonth(d, d.month - 1 + n)) == DayNumber(FirstDay(t)) + d.day - 1 &&
      (d.day <= DaysInMonth(t.year, t.month) ==> SetUTCMonth(d, d.month - 1 + n) == Date(t.year, t.month, d.day))
  {
    var k := d.month - 1 + n;
    DivShift12(d.year, k);
    var t := MonthFromIndex(MonthIndex(YearMonth(d.year, d.month)) + n);
    assert MonthIndex(YearMonth(d.year, d.month)) + n == 12 * d.year + k;
    assert t == YearMonth(d.year + k / 12, k % 12 + 1);
    assert SetUTCMonth(d, k) == Normalize(t.year, t.month, d.day);
    NormalizeDayNumber(t.year, t.month, d.day);
  }

  // ---------------------------------------------------------------------------
  // ISO text

  /** `toISOString()`'s time part for every timestamp in the analytics router. */
  const TimeOfDay: string := "T02:00:00.000Z"

  /** Years `toISOString()` writes with four digits. */
  predicate FourDigitYear(y: int) {
    0 <= y <= 9999
  }

  function FormatMonth(ym: YearMonth): string
    requires FourDigitYear(ym.year) && 1 <= ym.month <= 12
  {
    PadNat(ym.year, 4) + "-" + PadNat(ym.month, 2)
  }

  /** "YYYY-MM-DD" */
  function FormatDate(d: Date): string
    requires FourDigitYear(d.year) && ValidDate(d)
  {
    PadNat(d.year, 4) + "-" + PadNat(d.month, 2) + "-" + PadNat(d.day, 2)
  }

  /** `toISOString()` of the instant `d` at 02:00 UTC. */
  function IsoString(d: Date): string
    requires FourDigitYear(d.year) && ValidDate(d)
  {
    FormatDate(d) + TimeOfDay
  }

  predicate AllDigits(s: string) {
    forall i :: 0 <= i < |s| ==> IsDigit(s[i])
  }

  /**
   * `new Date(s)` for strings "YYYY-MM-DDT02:00:00.000Z" naming a real calendar
   * day; the model accepts no other string (`None`).
   */
  function ParseIso(s: string): Option<Date> {
    if |s| == 24 && AllDigits(s[0..4]) && s[4] == '-' && AllDigits(s[5..7]) && s[7] == '-' &&
       AllDigits(s[8..10]) && s[10..] == TimeOfDay
    then
      var d := Date(ParseDigits(s[0..4]), ParseDigits(s[5..7]), ParseDigits(s[8..10]));
      if ValidDate(d) then Some(d) else None
    else None
  }

  /** Reading back the ISO text of a date gives the date. */
  lemma ParseIsoString(d: Date)
    requires FourDigitYear(d.year) && ValidDate(d)
    ensures ParseIso(IsoString(d)) == Some(d)
  {
    assert Pow10(2) == 100 && Pow10(4) == 10000;
    var y, m, dd := PadNat(d.year, 4), PadNat(d.month, 2), PadNat(d.day, 2);
    var s := IsoString(d);
    assert s == y + "-" + m + "-" + dd + TimeOfDay;
    assert s[0..4] == y && s[4] == '-' && s[5..7] == m && s[7] == '-' && s[8..10] == dd && s[10..] == TimeOfDay;
    ParsePadNat(d.year, 4);
    ParsePadNat(d.month, 2);
    ParsePadNat(d.day, 2);
  }
}
