/**
 * The dashboard's month calendar: the length of the shown month, the weekday
 * its first day falls on, the grid of day cells (blanks, then 1, 2, …) and
 * the previous/next month buttons.
 *
 * The component keeps `new Date(year, month, 1)`; months are numbered 0..11
 * as in JavaScript.  The Date constructor carries a month outside 0..11 into
 * the year, and reads a year argument of 0..99 as 1900..1999; both are
 * modelled.  Dates are proleptic Gregorian, with Sunday = 0.
 */
module CalendarView {
  import opened Optional

  /** The month the calendar shows; the component's date is always its first day. */
  datatype MonthRef = MonthRef(year: int, month: int)

  predicate ValidMonth(c: MonthRef) {
    0 <= c.month < 12
  }

  predicate IsLeap(y: int) {
    y % 4 == 0 && (y % 100 != 0 || y % 400 == 0)
  }

  /** The Gregorian length of month m (0 = January) of year y. */
  function MonthLength(y: int, m: int): (n: int)
    requires 0 <= m < 12
    ensures 28 <= n <= 31
    ensures m == 1 ==> (n == 29 <==> IsLeap(y))
  {
    if m == 1 then (if IsLeap(y) then 29 else 28)
    else if m == 3 || m == 5 || m == 8 || m == 10 then 30
    else 31
  }

  /** The year the Date constructor actually uses for its year argument. */
  function ConstructorYear(y: int): int {
    if 0 <= y <= 99 then 1900 + y else y
  }

  /** `new Date(y, m, 1)`, read back with getFullYear() and getMonth(). */
  function MakeMonth(y: int, m: int): (r: MonthRef)
    ensures ValidMonth(r)
    ensures r.year * 12 + r.month == ConstructorYear(y) * 12 + m
  {
    MonthRef(ConstructorYear(y) + m / 12, m % 12)
  }

  /** The calendar month after c. */
  function Successor(c: MonthRef): MonthRef
    requires ValidMonth(c)
  {
    if c.month == 11 then MonthRef(c.year + 1, 0) else MonthRef(c.year, c.month + 1)
  }

  /** The calendar month before c. */
  function Predecessor(c: MonthRef): MonthRef
    requires ValidMonth(c)
  {
    if c.month == 0 then MonthRef(c.year - 1, 11) else MonthRef(c.year, c.month - 1)
  }

  /**
   * `daysInMonth`: `new Date(year, month + 1, 0).getDate()`, the last day of
   * the month before the first of the next one.
   */
  function DaysInMonth(c: MonthRef): (n: int)
    requires ValidMonth(c)
    ensures 28 <= n <= 31
  {
    var last := Predecessor(MakeMonth(c.year, c.month + 1));
    MonthLength(last.year, last.month)
  }

  /** The days-in-month count is the Gregorian length of the month (of the year the constructor uses). */
  lemma DaysInMonthIsLength(c: MonthRef)
    requires ValidMonth(c)
    ensures DaysInMonth(c) == MonthLength(ConstructorYear(c.year), c.month)
    ensures c.month == 1 ==> (DaysInMonth(c) == 29 <==> IsLeap(ConstructorYear(c.year)))
  {
    var next := MakeMonth(c.year, c.month + 1);
    if c.month < 11 {
      assert next == MonthRef(ConstructorYear(c.year), c.month + 1);
    } else {
      assert next == MonthRef(ConstructorYear(c.year) + 1, 0);
    }
  }

  /** Leap years in [0, y), negated for y < 0: ⌈y/4⌉ − ⌈y/100⌉ + ⌈y/400⌉. */
  function LeapYearsBefore(y: int): int {
    (y + 3) / 4 - (y + 99) / 100 + (y + 399) / 400
  }

  /** Days from 1 January of year 0 to 1 January of year y. */
  function DaysBeforeYear(y: int): int {
    365 * y + LeapYearsBefore(y)
  }

  /** Days from 1 January to the first of month m. */
  function DaysBeforeMonth(y: int, m: int): int
    requires 0 <= m < 12
  {
    [0, 31, 59, 90, 120, 151, 181, 212, 243, 273, 304, 334][m] + (if m >= 2 && IsLeap(y) then 1 else 0)
  }

  /** Days from 1 January of year 0 to the first of the month c. */
  function DayNumber(c: MonthRef): int
    requires ValidMonth(c)
  {
    DaysBeforeYear(c.year) + DaysBeforeMonth(c.year, c.month)
  }

  /** Weekday of the first of month c; 1 January of year 0 was a Saturday (6). */
  function FirstWeekday(c: MonthRef): (d: int)
    requires ValidMonth(c)
    ensures 0 <= d < 7
  {
    (DayNumber(c) + 6) % 7
  }

  lemma QuarterStep(y: int)
    ensures (y + 4) / 4 - (y + 3) / 4 == if y % 4 == 0 then 1 else 0
  {
  }

  lemma CenturyStep(y: int)
    ensures (y + 100) / 100 - (y + 99) / 100 == if y % 100 == 0 then 1 else 0
  {
  }

  lemma FourCenturyStep(y: int)
    ensures (y + 400) / 400 - (y + 399) / 400 == if y % 400 == 0 then 1 else 0
  {
  }

  /** The leap-year count goes up by one exactly past a leap year. */
  lemma LeapStep(y: int)
    ensures LeapYearsBefore(y + 1) - LeapYearsBefore(y) == if IsLeap(y) then 1 else 0
  {
    var quarters := (y + 4) / 4 - (y + 3) / 4;
    var centuries := (y + 100) / 100 - (y + 99) / 100;
    var cycles := (y + 400) / 400 - (y + 399) / 400;
    QuarterStep(y);
    CenturyStep(y);
    FourCenturyStep(y);
    assert LeapYearsBefore(y + 1) - LeapYearsBefore(y) == quarters - centuries + cycles;
    DivisorChain(y);
  }

  /** A multiple of 400 is a multiple of 100, and a multiple of 100 a multiple of 4. */
  lemma DivisorChain(y: int)
    ensures y % 400 == 0 ==> y % 100 == 0
    ensures y % 100 == 0 ==> y % 4 == 0
  {
    var k400, k100 := y / 400, y / 100;
    assert y == 400 * k400 + y % 400;
    assert y == 100 * k100 + y % 100;
    if y % 400 == 0 {
      assert y % 100 == (100 * (4 * k400)) % 100 == 0;
    }
    if y % 100 == 0 {
      assert y % 4 == (4 * (25 * k100)) % 4 == 0;
    }
  }

  /** A year has 366 days exactly when it is a leap year, 365 otherwise. */
  lemma YearLength(y: int)
    ensures DaysBeforeYear(y + 1) - DaysBeforeYear(y) == if IsLeap(y) then 366 else 365
  {
    LeapStep(y);
  }

  /** The first of the following month comes exactly one month length later. */
  lemma SuccessorDayNumber(c: MonthRef)
    requires ValidMonth(c)
    ensures DayNumber(Successor(c)) == DayNumber(c) + MonthLength(c.year, c.month)
  {
    if c.month == 11 {
      YearLength(c.year);
    }
  }

  /** The first of the following month falls that many weekdays later. */
  lemma SuccessorWeekday(c: MonthRef)
    requires ValidMonth(c)
    ensures FirstWeekday(Successor(c)) == (FirstWeekday(c) + MonthLength(c.year, c.month)) % 7
  {
    SuccessorDayNumber(c);
    ShiftWeekday(DayNumber(c) + 6, MonthLength(c.year, c.month));
  }

  lemma ShiftWeekday(x: int, n: int)
    ensures (x + n) % 7 == (x % 7 + n) % 7
  {
  }

  /** `firstDayOfMonth`: `new Date(year, month, 1).getDay()`. */
  function FirstDayOfMonth(c: MonthRef): (d: int)
    requires ValidMonth(c)
    ensures 0 <= d < 7
  {
    FirstWeekday(MakeMonth(c.year, c.month))
  }

  /** 1 March 2025, the component's starting month, was a Saturday. */
  lemma StartMonthWeekday()
    ensures FirstDayOfMonth(MonthRef(2025, 2)) == 6
    ensures DaysInMonth(MonthRef(2025, 2)) == 31
  {
    assert MakeMonth(2025, 3) == MonthRef(2025, 3);
  }

  /** `handlePrevMonth`: `new Date(year, month - 1, 1)`. */
  function PrevMonth(c: MonthRef): (r: MonthRef)
    ensures ValidMonth(r)
  {
    MakeMonth(c.year, c.month - 1)
  }

  /** `handleNextMonth`: `new Date(year, month + 1, 1)`. */
  function NextMonth(c: MonthRef): (r: MonthRef)
    ensures ValidMonth(r)
  {
    MakeMonth(c.year, c.month + 1)
  }

  /** A year outside 0..99, which the Date constructor takes as it is. */
  predicate FullYear(y: int) {
    y < 0 || y > 99
  }

  /**
   * Outside the years the constructor reinterprets, the buttons step to the
   * neighbouring calendar month: January goes back to December of the year
   * before and December forward to January of the year after.
   */
  lemma NavigationSteps(c: MonthRef)
    requires ValidMonth(c) && FullYear(c.year)
    ensures PrevMonth(c) == Predecessor(c)
    ensures NextMonth(c) == Successor(c)
    ensures c.month == 0 ==> PrevMonth(c) == MonthRef(c.year - 1, 11)
    ensures c.month == 11 ==> NextMonth(c) == MonthRef(c.year + 1, 0)
  {
    if c.month == 0 {
      assert MakeMonth(c.year, -1) == MonthRef(c.year - 1, 11);
    }
    if c.month == 11 {
      assert MakeMonth(c.year, 12) == MonthRef(c.year + 1, 0);
    }
  }

  /** Next undoes Prev, and Prev undoes Next, while no year of 0..99 is passed through. */
  lemma NavigationRoundTrip(c: MonthRef)
    requires ValidMonth(c) && FullYear(c.year)
    ensures FullYear(PrevMonth(c).year) ==> NextMonth(PrevMonth(c)) == c
    ensures FullYear(NextMonth(c).year) ==> PrevMonth(NextMonth(c)) == c
  {
    NavigationSteps(c);
    var p := PrevMonth(c);
    var n := NextMonth(c);
    if FullYear(p.year) {
      NavigationSteps(p);
    }
    if FullYear(n.year) {
      NavigationSteps(n);
    }
  }

  /** Within full years, each month's grid starts on the weekday where the previous month's ended. */
  lemma ConsecutiveMonths(c: MonthRef)
    requires ValidMonth(c) && FullYear(c.year) && FullYear(NextMonth(c).year)
    ensures FirstDayOfMonth(NextMonth(c)) == (FirstDayOfMonth(c) + DaysInMonth(c)) % 7
  {
    NavigationSteps(c);
    var n := NextMonth(c);
    assert MakeMonth(n.year, n.month) == n;
    assert MakeMonth(c.year, c.month) == c;
    DaysInMonthIsLength(c);
    SuccessorWeekday(c);
  }

  /**
   * Going back from January of year 100 reaches December of year 99, and the
   * constructor then reads 99 as 1999: Next lands on January 2000.
   */
  lemma TwoDigitYearJump()
    ensures PrevMonth(MonthRef(100, 0)) == MonthRef(99, 11)
    ensures NextMonth(MonthRef(99, 11)) == MonthRef(2000, 0)
  {
  }

  /**
   * `generateCalendarDays`: `firstDay` empty cells (null), then the day
   * numbers 1..daysInMonth.
   */
  method GenerateCalendarDays(firstDay: nat, daysInMonth: nat) returns (days: seq<Option<int>>)
    ensures |days| == firstDay + daysInMonth
    ensures forall i :: 0 <= i < firstDay ==> days[i] == None
    ensures forall i :: firstDay <= i < |days| ==> days[i] == Some(i - firstDay + 1)
  {
    days := [];
    var i := 0;
    while i < firstDay
      invariant 0 <= i <= firstDay
      invariant |days| == i
      invariant forall j :: 0 <= j < i ==> days[j] == None
    {
      days := days + [None];
      i := i + 1;
    }
    i := 1;
    while i <= daysInMonth
      invariant 1 <= i <= daysInMonth + 1
      invariant |days| == firstDay + i - 1
      invariant forall j :: 0 <= j < firstDay ==> days[j] == None
      invariant forall j :: firstDay <= j < |days| ==> days[j] == Some(j - firstDay + 1)
    {
      days := days + [Some(i)];
      i := i + 1;
    }
  }

  /** The non-empty cells hold 1..n in increasing order, each day exactly once. */
  lemma GridDaysIncreasing(days: seq<Option<int>>, firstDay: nat, daysInMonth: nat)
    requires |days| == firstDay + daysInMonth
    requires forall i :: 0 <= i < firstDay ==> days[i] == None
    requires forall i :: firstDay <= i < |days| ==> days[i] == Some(i - firstDay + 1)
    ensures forall i, j :: 0 <= i < j < |days| && days[i].Some? && days[j].Some? ==> days[i].value < days[j].value
    ensures forall d :: 1 <= d <= daysInMonth ==> Some(d) in days
  {
    forall i, j | 0 <= i < j < |days| && days[i].Some? && days[j].Some?
      ensures days[i].value < days[j].value
    {
      assert days[i] == Some(i - firstDay + 1);
      assert days[j] == Some(j - firstDay + 1);
    }
    forall d | 1 <= d <= daysInMonth ensures Some(d) in days {
      assert days[firstDay + d - 1] == Some(d);
    }
  }
}
