/**
 * Calendar arithmetic shared by the components: dates as (year, month, day)
 * triples with 1-based months, the month arithmetic JavaScript's `Date`
 * constructor performs when handed an out-of-range month or day, month
 * navigation, and the 42-cell month grid that `getDaysInMonth` builds.
 */
module Calendar {
  import opened Text

  type Month = m: int | 1 <= m <= 12 witness 1

  datatype YearMonth = YearMonth(year: int, month: Month)

  /** A calendar day; `day` is not constrained by the type (see `ValidDay`). */
  datatype Day = Day(year: int, month: Month, day: int)

  /** A JavaScript `Date` instant: the local calendar day and the time within it. */
  datatype Moment = Moment(day: Day, timeOfDay: int)

  // ------------------------------------------------------------ months

  /** Months counted from January of year 0. */
  function MonthIndex(ym: YearMonth): int {
    ym.year * 12 + ym.month - 1
  }

  /** The month `k` months after January of year 0, a year at a time. */
  function MonthAt(k: int): (ym: YearMonth)
    ensures MonthIndex(ym) == k
    decreases if k < 0 then 12 - k else k
  {
    if k < 0 then
      var m := MonthAt(k + 12);
      YearMonth(m.year - 1, m.month)
    else if k < 12 then YearMonth(0, k + 1)
    else
      var m := MonthAt(k - 12);
      YearMonth(m.year + 1, m.month)
  }

  lemma MonthIndexInjective(a: YearMonth, b: YearMonth)
    ensures MonthIndex(a) == MonthIndex(b) <==> a == b
  {
  }

  /** `new Date(year, month + n, 1)`: `n` months later, rolling the year over. */
  function AddMonths(ym: YearMonth, n: int): (r: YearMonth)
    ensures MonthIndex(r) == MonthIndex(ym) + n
  {
    MonthAt(MonthIndex(ym) + n)
  }

  /** `new Date(currentMonth.getFullYear(), currentMonth.getMonth() - 1)`. */
  function PreviousMonth(ym: YearMonth): YearMonth {
    AddMonths(ym, -1)
  }

  /** `new Date(currentMonth.getFullYear(), currentMonth.getMonth() + 1)`. */
  function NextMonth(ym: YearMonth): YearMonth {
    AddMonths(ym, 1)
  }

  /** Stepping back from January lands on December of the year before. */
  lemma PreviousMonthRollsOver(ym: YearMonth)
    ensures PreviousMonth(ym)
         == if ym.month == 1 then YearMonth(ym.year - 1, 12) else YearMonth(ym.year, ym.month - 1)
  {
    var expected := if ym.month == 1 then YearMonth(ym.year - 1, 12) else YearMonth(ym.year, ym.month - 1);
    MonthIndexInjective(PreviousMonth(ym), expected);
  }

  /** Stepping on from December lands on January of the year after. */
  lemma NextMonthRollsOver(ym: YearMonth)
    ensures NextMonth(ym)
         == if ym.month == 12 then YearMonth(ym.year + 1, 1) else YearMonth(ym.year, ym.month + 1)
  {
    var expected := if ym.month == 12 then YearMonth(ym.year + 1, 1) else YearMonth(ym.year, ym.month + 1);
    MonthIndexInjective(NextMonth(ym), expected);
  }

  /** The two navigation buttons undo each other. */
  lemma NavigationRoundTrip(ym: YearMonth)
    ensures NextMonth(PreviousMonth(ym)) == ym
    ensures PreviousMonth(NextMonth(ym)) == ym
  {
    MonthIndexInjective(NextMonth(PreviousMonth(ym)), ym);
    MonthIndexInjective(PreviousMonth(NextMonth(ym)), ym);
  }

  /** `${year}年${month}月`, the label used for a month in lists and charts. */
  function MonthLabel(ym: YearMonth): string {
    IntToString(ym.year) + "年" + IntToString(ym.month) + "月"
  }

  /** `${year}-${MM}`: the month key of the site list's month filter. */
  function MonthKey(ym: YearMonth): string {
    IntToString(ym.year) + "-" + TwoDigits(ym.month)
  }

  /** Different months have different keys. */
  lemma MonthKeyInjective(a: YearMonth, b: YearMonth)
    ensures MonthKey(a) == MonthKey(b) <==> a == b
  {
    TwoDigitPad(a.month);
    TwoDigitPad(b.month);
    SeparatedParts(IntToString(a.year), TwoDigits(a.month), IntToString(b.year), TwoDigits(b.month));
    IntToStringInjective(a.year, b.year);
  }

  /** Two strings ending in `-` and a same-length tail are equal only when both parts are. */
  lemma SeparatedParts(x: string, p: string, y: string, q: string)
    requires |p| == |q|
    ensures x + "-" + p == y + "-" + q ==> x == y && p == q
  {
    var k, l := x + "-" + p, y + "-" + q;
    if k == l {
      assert k[|k| - |p|..] == p && l[|l| - |q|..] == q;
      assert k[..|k| - |p| - 1] == x && l[..|l| - |q| - 1] == y;
    }
  }

  // -------------------------------------------------------------- days

  predicate IsLeapYear(y: int) {
    y % 4 == 0 && (y % 100 != 0 || y % 400 == 0)
  }

  /** `new Date(year, month + 1, 0).getDate()` in the proleptic Gregorian calendar. */
  function MonthLength(ym: YearMonth): (n: int)
    ensures 28 <= n <= 31
  {
    if ym.month == 2 then (if IsLeapYear(ym.year) then 29 else 28)
    else if ym.month in {4, 6, 9, 11} then 30
    else 31
  }

  function MonthOf(d: Day): YearMonth {
    YearMonth(d.year, d.month)
  }

  predicate ValidDay(d: Day) {
    1 <= d.day <= MonthLength(MonthOf(d))
  }

  /**
   * `new Date(year, month, d)`: day `d` of month `ym`, where a day before the 1st
   * or after the last counts on into the neighbouring months.
   */
  function MakeDate(ym: YearMonth, d: int): (r: Day)
    ensures ValidDay(r)
    decreases if d < 1 then 1 - d else 0, if d > MonthLength(ym) then d - MonthLength(ym) else 0
  {
    if d < 1 then MakeDate(PreviousMonth(ym), d + MonthLength(PreviousMonth(ym)))
    else if d > MonthLength(ym) then MakeDate(NextMonth(ym), d - MonthLength(ym))
    else Day(ym.year, ym.month, d)
  }

  /** The day after `d`. */
  function NextDay(d: Day): Day {
    MakeDate(MonthOf(d), d.day + 1)
  }

  /** Chronological order of days: by year, then month, then day. */
  predicate DayLe(a: Day, b: Day) {
    a.year < b.year
    || (a.year == b.year && (a.month < b.month || (a.month == b.month && a.day <= b.day)))
  }

  /** `${year}-${MM}-${DD}`: the local-date key the site calendar compares days by. */
  function DayKey(d: Day): string {
    MonthKey(MonthOf(d)) + "-" + TwoDigits(d.day)
  }

  /** On real dates, equal keys means the same day. */
  lemma DayKeyInjective(a: Day, b: Day)
    requires ValidDay(a) && ValidDay(b)
    ensures DayKey(a) == DayKey(b) <==> a == b
  {
    TwoDigitPad(a.day);
    TwoDigitPad(b.day);
    SeparatedParts(MonthKey(MonthOf(a)), TwoDigits(a.day), MonthKey(MonthOf(b)), TwoDigits(b.day));
    MonthKeyInjective(MonthOf(a), MonthOf(b));
  }

  // -------------------------------------------------------------- grid

  /** One cell of the month view: a date and whether it belongs to the shown month. */
  datatype Cell = Cell(date: Day, isCurrentMonth: bool)

  const GridSize := 42

  /**
   * Cell `i` of the six-week, Sunday-first grid for month `ym` whose 1st falls on
   * weekday `startingDay` (0 = Sunday): the last `startingDay` days of the month
   * before, then every day of `ym`, then the first days of the month after.
   */
  function GridCell(ym: YearMonth, startingDay: int, i: int): Cell
    requires 0 <= startingDay <= 6 && 0 <= i < GridSize
  {
    var prev, next, len := PreviousMonth(ym), NextMonth(ym), MonthLength(ym);
    if i < startingDay then
      Cell(Day(prev.year, prev.month, MonthLength(prev) - startingDay + 1 + i), false)
    else if i < startingDay + len then
      Cell(Day(ym.year, ym.month, i - startingDay + 1), true)
    else
      Cell(Day(next.year, next.month, i - startingDay - len + 1), false)
  }

  /**
   * `getDaysInMonth`: three loops push the trailing days of the month before,
   * the days of the month, and as many days of the month after as fill 42 cells.
   */
  method DaysInMonth(ym: YearMonth, startingDay: int) returns (days: seq<Cell>)
    requires 0 <= startingDay <= 6
    ensures |days| == GridSize
    ensures forall i :: 0 <= i < GridSize ==> days[i] == GridCell(ym, startingDay, i)
  {
    var daysInMonth := MonthLength(ym);
    days := [];
    var i := startingDay - 1;
    while i >= 0
      invariant -1 <= i < startingDay
      invariant |days| == startingDay - 1 - i
      invariant forall k :: 0 <= k < |days| ==> days[k] == GridCell(ym, startingDay, k)
    {
      ghost var prev := PreviousMonth(ym);
      assert MakeDate(prev, MonthLength(prev) - i) == Day(prev.year, prev.month, MonthLength(prev) - i);
      days := days + [Cell(MakeDate(ym, -i), false)];
      i := i - 1;
    }
    i := 1;
    while i <= daysInMonth
      invariant 1 <= i <= daysInMonth + 1
      invariant |days| == startingDay + i - 1
      invariant forall k :: 0 <= k < |days| ==> days[k] == GridCell(ym, startingDay, k)
    {
      days := days + [Cell(MakeDate(ym, i), true)];
      i := i + 1;
    }
    var remainingDays := GridSize - |days|;
    i := 1;
    while i <= remainingDays
      invariant 1 <= i <= remainingDays + 1
      invariant |days| == startingDay + daysInMonth + i - 1
      invariant forall k :: 0 <= k < |days| ==> days[k] == GridCell(ym, startingDay, k)
    {
      days := days + [Cell(MakeDate(NextMonth(ym), i), false)];
      i := i + 1;
    }
  }

  /**
   * The grid's shape: the first `startingDay` cells are the last days of the
   * month before, ascending; then the days 1..n of the shown month, in order;
   * then at least five days of the month after, counting from its 1st.
   */
  lemma GridShape(ym: YearMonth, startingDay: int)
    requires 0 <= startingDay <= 6
    ensures GridSize - startingDay - MonthLength(ym) >= 5
    ensures forall i :: 0 <= i < startingDay ==>
              GridCell(ym, startingDay, i)
              == Cell(Day(PreviousMonth(ym).year, PreviousMonth(ym).month,
                          MonthLength(PreviousMonth(ym)) - startingDay + 1 + i), false)
    ensures forall k :: 1 <= k <= GridSize - startingDay - MonthLength(ym) ==>
              GridCell(ym, startingDay, startingDay + MonthLength(ym) + k - 1)
              == Cell(Day(NextMonth(ym).year, NextMonth(ym).month, k), false)
    ensures forall i :: 0 <= i < GridSize ==>
              (GridCell(ym, startingDay, i).isCurrentMonth
               <==> startingDay <= i < startingDay + MonthLength(ym))
    ensures forall d :: 1 <= d <= MonthLength(ym) ==>
              GridCell(ym, startingDay, startingDay + d - 1) == Cell(Day(ym.year, ym.month, d), true)
  {
  }

  /** Every cell is a real date, and a cell belongs to the shown month exactly when it is marked so. */
  lemma GridCellsAreDates(ym: YearMonth, startingDay: int, i: int)
    requires 0 <= startingDay <= 6 && 0 <= i < GridSize
    ensures ValidDay(GridCell(ym, startingDay, i).date)
    ensures GridCell(ym, startingDay, i).isCurrentMonth <==> MonthOf(GridCell(ym, startingDay, i).date) == ym
  {
    PreviousMonthRollsOver(ym);
    NextMonthRollsOver(ym);
  }

  /** Consecutive cells hold consecutive days, across both month boundaries. */
  lemma GridConsecutive(ym: YearMonth, startingDay: int, i: int)
    requires 0 <= startingDay <= 6 && 0 <= i < GridSize - 1
    ensures NextDay(GridCell(ym, startingDay, i).date) == GridCell(ym, startingDay, i + 1).date
  {
    var prev, next, len := PreviousMonth(ym), NextMonth(ym), MonthLength(ym);
    var d := GridCell(ym, startingDay, i).date;
    if i == startingDay - 1 {
      // the last day of the month before, then the 1st of the shown month
      assert d == Day(prev.year, prev.month, MonthLength(prev));
      NavigationRoundTrip(ym);
      assert NextDay(d) == MakeDate(ym, 1);
    } else if i == startingDay + len - 1 {
      // the last day of the shown month, then the 1st of the month after
      assert d == Day(ym.year, ym.month, len);
      assert NextDay(d) == MakeDate(next, 1);
    }
  }
}
