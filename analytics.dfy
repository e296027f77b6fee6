/**
 * The sales report's date handling and row selection (GET / of the analytics
 * router): building the reporting window from the query string, the window
 * of the previous month, and the first-wins best/worst reductions over the
 * rows the aggregate queries return. Timestamps are the calendar dates of
 * instants at 02:00 UTC; money is in integer thousandths of an OMR.
 */
module Analytics {
  import opened Wrappers
  import opened Text
  import opened Calendar

  // ---------------------------------------------------------------------------
  // Timestamp helpers

  /** `startTsFromYMD`: "YYYY-MM-DD" becomes the instant at 02:00 UTC of that day. */
  function StartTsFromYMD(ymd: string): string {
    ymd + TimeOfDay
  }

  /** `startTsFromMonth`: "YYYY-MM" becomes the instant at 02:00 UTC of its first day. */
  function StartTsFromMonth(month: string): string {
    month + "-01" + TimeOfDay
  }

  /** The timestamp built from a date's text is that date's ISO string and reads back as the date. */
  lemma StartTsFromYMDDenotes(d: Date)
    requires FourDigitYear(d.year) && ValidDate(d)
    ensures StartTsFromYMD(FormatDate(d)) == IsoString(d)
    ensures ParseIso(StartTsFromYMD(FormatDate(d))) == Some(d)
  {
    ParseIsoString(d);
  }

  /** The timestamp built from a month's text denotes the first day of the month. */
  lemma StartTsFromMonthDenotes(ym: YearMonth)
    requires FourDigitYear(ym.year) && 1 <= ym.month <= 12
    ensures StartTsFromMonth(FormatMonth(ym)) == IsoString(FirstDay(ym))
    ensures ParseIso(StartTsFromMonth(FormatMonth(ym))) == Some(FirstDay(ym))
  {
    assert Pow10(2) == 100;
    assert PadNat(1, 2) == "01";
    assert FormatDate(FirstDay(ym)) == FormatMonth(ym) + "-01";
    ParseIsoString(FirstDay(ym));
  }

  /** Whatever month text is given, a timestamp that parses is the first of a month. */
  lemma StartTsFromMonthIsFirst(month: string)
    requires ParseIso(StartTsFromMonth(month)).Some?
    ensures ParseIso(StartTsFromMonth(month)).value.day == 1
  {
    var s := StartTsFromMonth(month);
    assert s[8..10] == "01";
    assert "01"[..1] == "0" && "0"[..0] == [];
  }

  /** `addDaysISO`: moves a timestamp by `days` whole days. */
  method AddDaysISO(ts: Date, days: int) returns (r: Date)
    requires ValidDate(ts)
    ensures ValidDate(r)
    ensures DayNumber(r) == DayNumber(ts) + days
  {
    var d := ts;
    SetUTCDateShifts(d, days);
    d := SetUTCDate(d, d.day + days);
    r := d;
  }

  /**
   * `addMonthsISO`: the day of the month `months` months on; a day past the
   * end of that month rolls over into the next one.
   */
  method AddMonthsISO(ts: Date, months: int) returns (r: Date)
    requires ValidDate(ts)
    ensures var t := MonthFromIndex(MonthIndex(YearMonth(ts.year, ts.month)) + months);
      ValidDate(r) &&
      DayNumber(r) == DayNumber(FirstDay(t)) + ts.day - 1 &&
      (ts.day <= DaysInMonth(t.year, t.month) ==> r == Date(t.year, t.month, ts.day))
  {
    var d := ts;
    SetUTCMonthShifts(d, months);
    d := SetUTCMonth(d, d.month - 1 + months);
    r := d;
  }

  // ---------------------------------------------------------------------------
  // Reporting window

  datatype Mode = MonthMode | RangeMode

  /** The half-open window [startTs, endTs) the report covers. */
  datatype Range = Range(mode: Mode, startTs: Date, endTs: Date)

  const RangeRequired: string := "Provide either ?month=YYYY-MM OR ?start=YYYY-MM-DD&end=YYYY-MM-DD"

  /** A query parameter that JavaScript treats as true: present and not empty. */
  predicate Truthy(p: Option<string>) {
    p.Some? && p.value != ""
  }

  function YearMonthOf(d: Date): YearMonth {
    YearMonth(d.year, d.month)
  }

  /**
   * The window for the query parameters `month`, `start` and `end`. A month
   * takes precedence; otherwise both ends are needed, and the end day is
   * included. Every date text used must be zero-padded and name a real day.
   */
  method SelectRange(month: Option<string>, start: Option<string>, end: Option<string>) returns (r: Result<Range, string>)
    requires Truthy(month) ==> ParseIso(StartTsFromMonth(month.value)).Some?
    requires !Truthy(month) && Truthy(start) && Truthy(end) ==>
      ParseIso(StartTsFromYMD(start.value)).Some? && ParseIso(StartTsFromYMD(end.value)).Some?
    ensures r.Failure? <==> !Truthy(month) && !(Truthy(start) && Truthy(end))
    ensures r.Failure? ==> r.error == RangeRequired
    ensures Truthy(month) ==>
      var w := r.value;
      w.mode == MonthMode &&
      Some(w.startTs) == ParseIso(StartTsFromMonth(month.value)) && w.startTs.day == 1 &&
      w.endTs == FirstDay(NextMonth(YearMonthOf(w.startTs))) &&
      DayNumber(w.endTs) == DayNumber(w.startTs) + DaysInMonth(w.startTs.year, w.startTs.month)
    ensures !Truthy(month) && Truthy(start) && Truthy(end) ==>
      var w := r.value;
      var last := ParseIso(StartTsFromYMD(end.value)).value;
      w.mode == RangeMode &&
      Some(w.startTs) == ParseIso(StartTsFromYMD(start.value)) &&
      ValidDate(w.endTs) && DayNumber(w.endTs) == DayNumber(last) + 1 &&
      (!Before(last, w.startTs) ==> Before(w.startTs, w.endTs))
  {
    var mode: Mode;
    var startTs: Date;
    var endTs: Date;
    if Truthy(month) {
      mode := MonthMode;
      startTs := ParseIso(StartTsFromMonth(month.value)).value;
      StartTsFromMonthIsFirst(month.value);
      endTs := AddMonthsISO(startTs, 1);
      NeighbourMonths(YearMonthOf(startTs));
      MonthStep(YearMonthOf(startTs));
    } else if Truthy(start) && Truthy(end) {
      mode := RangeMode;
      startTs := ParseIso(StartTsFromYMD(start.value)).value;
      var endStart := ParseIso(StartTsFromYMD(end.value)).value;
      endTs := AddDaysISO(endStart, 1);
      DayNumberOrder(endStart, startTs);
      DayNumberOrder(startTs, endTs);
    } else {
      return Failure(RangeRequired);
    }
    r := Success(Range(mode, startTs, endTs));
  }

  /** The previous month's window, reported next to a month. */
  datatype Window = Window(prevStart: Date, prevEnd: Date)

  /**
   * The month comparison: only in month mode, a window that ends where the
   * report starts and starts one month earlier, so that for a report starting
   * on the first of a month it is exactly the previous calendar month.
   */
  method MonthCompare(range: Range) returns (w: Option<Window>)
    requires range.mode == MonthMode ==> ValidDate(range.startTs)
    ensures w.Some? <==> range.mode == MonthMode
    ensures w.Some? ==> w.value.prevEnd == range.startTs
    ensures w.Some? && range.startTs.day == 1 ==>
      var prev := PrevMonth(YearMonthOf(range.startTs));
      w.value.prevStart == FirstDay(prev) &&
      FirstDay(NextMonth(prev)) == w.value.prevEnd &&
      DayNumber(w.value.prevEnd) == DayNumber(w.value.prevStart) + DaysInMonth(prev.year, prev.month)
  {
    w := None;
    if range.mode == MonthMode {
      var prevStart := AddMonthsISO(range.startTs, -1);
      var prevEnd := range.startTs;
      NeighbourMonths(YearMonthOf(range.startTs));
      MonthStep(PrevMonth(YearMonthOf(range.startTs)));
      w := Some(Window(prevStart, prevEnd));
    }
  }

  // ---------------------------------------------------------------------------
  // First-wins reductions

  /**
   * The report's left fold that starts from null and keeps the current best row:
   * a later row replaces the current best only when strictly greater.
   */
  function FirstMax<T>(rows: seq<T>, key: T -> int): (best: Option<T>)
    ensures best.None? <==> rows == []
    ensures best.Some? ==> best.value in rows && forall x :: x in rows ==> key(x) <= key(best.value)
  {
    if rows == [] then None
    else
      var prior := FirstMax(rows[..|rows| - 1], key);
      var r := rows[|rows| - 1];
      assert forall x :: x in rows ==> x in rows[..|rows| - 1] || x == r;
      if prior.None? || key(r) > key(prior.value) then Some(r) else prior
  }

  /** Row `i` has the greatest key, and every row before it a smaller one. */
  predicate IsFirstMax<T>(rows: seq<T>, key: T -> int, i: int) {
    0 <= i < |rows| &&
    (forall j :: 0 <= j < |rows| ==> key(rows[j]) <= key(rows[i])) &&
    (forall j :: 0 <= j < i ==> key(rows[j]) < key(rows[i]))
  }

  /** The fold picks the first row of greatest key: later ties do not replace it. */
  lemma {:induction false} FirstMaxIsFirst<T>(rows: seq<T>, key: T -> int, i: int)
    requires IsFirstMax(rows, key, i)
    ensures FirstMax(rows, key) == Some(rows[i])
  {
    var pre := rows[..|rows| - 1];
    var r := rows[|rows| - 1];
    if i == |rows| - 1 {
      var prior := FirstMax(pre, key);
      if prior.Some? {
        var k :| 0 <= k < |pre| && pre[k] == prior.value;
        assert key(rows[k]) < key(r);
      }
    } else {
      assert IsFirstMax(pre, key, i) by {
        assert forall j :: 0 <= j < |pre| ==> pre[j] == rows[j];
      }
      FirstMaxIsFirst(pre, key, i);
    }
  }

  /** A non-empty list has a first row of greatest key. */
  lemma {:induction false} FirstMaxIndex<T>(rows: seq<T>, key: T -> int) returns (i: int)
    requires rows != []
    ensures IsFirstMax(rows, key, i)
  {
    if |rows| == 1 {
      i := 0;
    } else {
      var pre := rows[..|rows| - 1];
      var r := rows[|rows| - 1];
      var k := FirstMaxIndex(pre, key);
      assert forall j :: 0 <= j < |pre| ==> pre[j] == rows[j];
      if key(r) > key(rows[k]) {
        i := |rows| - 1;
      } else {
        i := k;
      }
    }
  }

  /** Row `i` has the least key, and every row before it a greater one. */
  predicate IsFirstMin<T>(rows: seq<T>, key: T -> int, i: int) {
    0 <= i < |rows| &&
    (forall j :: 0 <= j < |rows| ==> key(rows[i]) <= key(rows[j])) &&
    (forall j :: 0 <= j < i ==> key(rows[i]) < key(rows[j]))
  }

  // ---------------------------------------------------------------------------
  // Report rows

  /** A row of the daily revenue list. */
  datatype DayRow = DayRow(day: Date, orders: nat, revenueMils: int)

  /** A row of the sales-by-weekday list; `day` is the weekday's name. */
  datatype DowRow = DowRow(day: string, dowIndex: int, orders: nat, revenueMils: int)

  /** A row of the category performance list. */
  datatype CategoryRow = CategoryRow(category: string, units: int, revenueMils: int)

  function DayRevenue(r: DayRow): int { r.revenueMils }

  /** Revenue negated: `-a > -b` exactly when `a < b`, so maxima of this are the minima of revenue. */
  function DayLoss(r: DayRow): int { -r.revenueMils }

  function DowRevenue(r: DowRow): int { r.revenueMils }

  function CategoryRevenue(r: CategoryRow): int { r.revenueMils }

  function CategoryUnits(r: CategoryRow): int { r.units }

  /** The best day: first of greatest revenue. */
  function BestDay(days: seq<DayRow>): Option<DayRow> {
    FirstMax(days, DayRevenue)
  }

  /** The worst day, `reduce` with `<`: first of least revenue. */
  function WorstDay(days: seq<DayRow>): Option<DayRow> {
    FirstMax(days, DayLoss)
  }

  /** Every non-empty day list has a first day of least revenue. */
  lemma FirstMinIndex(days: seq<DayRow>) returns (k: int)
    requires days != []
    ensures IsFirstMin(days, DayRevenue, k)
  {
    k := FirstMaxIndex(days, DayLoss);
  }

  /** `x || null` on a text field: an empty text is reported as null. */
  function TextOrNull(s: string): Option<string> {
    if s == "" then None else Some(s)
  }

  function PeakDay(rows: seq<DowRow>): Option<string> {
    match FirstMax(rows, DowRevenue)
    case None => None
    case Some(r) => TextOrNull(r.day)
  }

  function BestCategoryByRevenue(rows: seq<CategoryRow>): Option<string> {
    match FirstMax(rows, CategoryRevenue)
    case None => None
    case Some(r) => TextOrNull(r.category)
  }

  function BestCategoryByUnits(rows: seq<CategoryRow>): Option<string> {
    match FirstMax(rows, CategoryUnits)
    case None => None
    case Some(r) => TextOrNull(r.category)
  }

  /** Best and worst day are the first days of greatest and of least revenue, and null without days. */
  lemma BestWorstDay(days: seq<DayRow>, i: int, k: int)
    requires IsFirstMax(days, DayRevenue, i) && IsFirstMin(days, DayRevenue, k)
    ensures BestDay(days) == Some(days[i])
    ensures WorstDay(days) == Some(days[k])
  {
    FirstMaxIsFirst(days, DayRevenue, i);
    assert IsFirstMax(days, DayLoss, k);
    FirstMaxIsFirst(days, DayLoss, k);
  }

  /** On an empty list every reduction yields null. */
  lemma EmptyReductions()
    ensures BestDay([]) == None && WorstDay([]) == None
    ensures PeakDay([]) == None && BestCategoryByRevenue([]) == None && BestCategoryByUnits([]) == None
  {
  }

  /** The peak weekday is the name of the first weekday of greatest revenue. */
  lemma PeakDayIsFirst(rows: seq<DowRow>, i: int)
    requires IsFirstMax(rows, DowRevenue, i)
    ensures PeakDay(rows) == TextOrNull(rows[i].day)
  {
    FirstMaxIsFirst(rows, DowRevenue, i);
  }

  /** The best categories are those of the first rows of greatest revenue and of most units. */
  lemma BestCategoryIsFirst(rows: seq<CategoryRow>, i: int, k: int)
    requires IsFirstMax(rows, CategoryRevenue, i) && IsFirstMax(rows, CategoryUnits, k)
    ensures BestCategoryByRevenue(rows) == TextOrNull(rows[i].category)
    ensures BestCategoryByUnits(rows) == TextOrNull(rows[k].category)
  {
    FirstMaxIsFirst(rows, CategoryRevenue, i);
    FirstMaxIsFirst(rows, CategoryUnits, k);
  }

  /**
   * The daily statistics of the handler: best and worst day are computed only
   * when there are days and stay null otherwise.
   */
  method DailyExtremes(days: seq<DayRow>) returns (bestDay: Option<DayRow>, worstDay: Option<DayRow>)
    ensures bestDay.None? <==> days == []
    ensures worstDay.None? <==> days == []
    ensures forall i :: IsFirstMax(days, DayRevenue, i) ==> bestDay == Some(days[i])
    ensures forall k :: IsFirstMin(days, DayRevenue, k) ==> worstDay == Some(days[k])
  {
    bestDay := None;
    worstDay := None;
    if |days| > 0 {
      bestDay := BestDay(days);
      worstDay := WorstDay(days);
      forall i | IsFirstMax(days, DayRevenue, i)
        ensures bestDay == Some(days[i])
      {
        FirstMaxIsFirst(days, DayRevenue, i);
      }
      forall k | IsFirstMin(days, DayRevenue, k)
        ensures worstDay == Some(days[k])
      {
        assert IsFirstMax(days, DayLoss, k);
        FirstMaxIsFirst(days, DayLoss, k);
      }
    }
  }
}
