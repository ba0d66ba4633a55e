/** Calendar arithmetic of the period tokens: civil dates as day numbers (day 0 is
    Monday 0001-01-01 of the proleptic Gregorian calendar), with the month and day
    overflow of Go's time.Date, and the Monday of an ISO week. */
module Calendar {

  predicate Leap(y: int) {
    y % 4 == 0 && (y % 100 != 0 || y % 400 == 0)
  }

  function YearLength(y: int): int { if Leap(y) then 366 else 365 }

  /** Day number of January 1 of year `y`. */
  function YearStart(y: int): int {
    365 * (y - 1) + (y - 1) / 4 - (y - 1) / 100 + (y - 1) / 400
  }

  function DaysInMonth(y: int, m: int): int {
    if m == 2 then (if Leap(y) then 29 else 28)
    else if m == 4 || m == 6 || m == 9 || m == 11 then 30
    else 31
  }

  /** Days of year `y` before month `m`. */
  function DaysBefore(y: int, m: int): int
    requires 1 <= m <= 13
    decreases m
  {
    if m == 1 then 0 else DaysBefore(y, m - 1) + DaysInMonth(y, m - 1)
  }

  /** time.Date: months outside 1..12 and days outside the month carry over. */
  function DayNumber(y: int, m: int, d: int): int {
    var year, month := y + (m - 1) / 12, (m - 1) % 12 + 1;
    YearStart(year) + DaysBefore(year, month) + d - 1
  }

  predicate ValidDate(y: int, m: int, d: int) {
    1 <= m <= 12 && 1 <= d <= DaysInMonth(y, m)
  }

  /** time.Weekday: Sunday is 0. */
  function Weekday(day: int): int { (day + 1) % 7 }

  /** isoWeekMonday: January 4 is always in week 1. */
  function WeekMonday(y: int, week: int): int {
    var jan4 := DayNumber(y, 1, 4);
    var weekday := if Weekday(jan4) == 0 then 7 else Weekday(jan4);
    jan4 - (weekday - 1) + (week - 1) * 7
  }

  // ---------------------------------------------------------------- years

  lemma NextYear(y: int)
    ensures YearStart(y + 1) == YearStart(y) + YearLength(y)
  {
    Quotient(y, 4);
    Quotient(y, 100);
    Quotient(y, 400);
    if y % 400 == 0 { Multiple(y, 100, 4); }
    if y % 100 == 0 { Multiple(y, 4, 25); }
  }

  lemma Quotient(y: int, n: int)
    requires n > 0
    ensures y / n - (y - 1) / n == if y % n == 0 then 1 else 0
  {
    var q, r := y / n, y % n;
    assert y == q * n + r;
    if r == 0 {
      assert y - 1 == (q - 1) * n + (n - 1);
      DivUnique(y - 1, n, q - 1, n - 1);
    } else {
      assert y - 1 == q * n + (r - 1);
      DivUnique(y - 1, n, q, r - 1);
    }
  }

  lemma DivUnique(x: int, n: int, q: int, r: int)
    requires n > 0 && x == q * n + r && 0 <= r < n
    ensures x / n == q && x % n == r
  {
    var d := x / n - q;
    assert d * n == r - x % n;
    assert d >= 1 ==> d * n >= n;
    assert d <= -1 ==> d * n <= -n;
  }

  lemma Multiple(y: int, a: int, b: int)
    requires a > 0 && b > 0 && y % (a * b) == 0
    ensures y % a == 0
  {
    var q := y / (a * b);
    assert y == q * (a * b) == (q * b) * a;
    DivUnique(y, a, q * b, 0);
  }

  lemma YearsApart(y: int, z: int)
    requires y <= z
    ensures YearStart(y) + 365 * (z - y) <= YearStart(z)
    decreases z - y
  {
    if y < z {
      NextYear(y);
      YearsApart(y + 1, z);
    }
  }

  // ---------------------------------------------------------------- dates

  lemma WholeYear(y: int)
    ensures DaysBefore(y, 13) == YearLength(y)
  {
    assert DaysBefore(y, 4) == DaysInMonth(y, 1) + DaysInMonth(y, 2) + DaysInMonth(y, 3);
    assert DaysBefore(y, 7) == DaysBefore(y, 4) + 91;
    assert DaysBefore(y, 10) == DaysBefore(y, 7) + 92;
    assert DaysBefore(y, 13) == DaysBefore(y, 10) + 92;
  }

  lemma MonthsGrow(y: int, m: int, n: int)
    requires 1 <= m < n <= 13
    ensures DaysBefore(y, m) + DaysInMonth(y, m) <= DaysBefore(y, n)
    decreases n - m
  {
    if m + 1 < n { MonthsGrow(y, m, n - 1); }
  }

  /** A valid date lies in its own year. */
  lemma DateInYear(y: int, m: int, d: int)
    requires ValidDate(y, m, d)
    ensures DayNumber(y, m, d) == YearStart(y) + DaysBefore(y, m) + d - 1
    ensures YearStart(y) <= DayNumber(y, m, d) < YearStart(y + 1)
  {
    hide YearStart, DayNumber, DaysBefore, DaysInMonth, YearLength;
    WithinYear(y, m, d);
    NextYear(y);
    WholeYear(y);
    BeforeNonnegative(y, m);
    MonthsGrow(y, m, 13);
  }

  lemma BeforeNonnegative(y: int, m: int)
    requires 1 <= m <= 13
    ensures DaysBefore(y, m) >= 0
  {
    if m > 1 { MonthsGrow(y, 1, m); }
  }

  predicate DateBefore(y: int, m: int, d: int, y': int, m': int, d': int) {
    y < y' || (y == y' && (m < m' || (m == m' && d < d')))
  }

  /** Day numbers of valid dates are strictly monotone. */
  lemma DateOrder(y: int, m: int, d: int, y': int, m': int, d': int)
    requires ValidDate(y, m, d) && ValidDate(y', m', d') && DateBefore(y, m, d, y', m', d')
    ensures DayNumber(y, m, d) < DayNumber(y', m', d')
  {
    hide DayNumber, YearStart, DaysInMonth, DaysBefore;
    DateInYear(y, m, d);
    DateInYear(y', m', d');
    if y < y' {
      YearsApart(y + 1, y');
    } else if m < m' {
      MonthsGrow(y, m, m');
    }
  }

  /** A day number stays inside its nominal month exactly when the day is one of the
      month's days: the carry-over is what breaks the order of impossible dates. */
  lemma ValidIffNoCarry(y: int, m: int, d: int)
    requires 1 <= m <= 12
    ensures ValidDate(y, m, d) <==> DayNumber(y, m, 1) <= DayNumber(y, m, d) < DayNumber(y, m + 1, 1)
  {
    hide DayNumber, YearStart, DaysBefore, DaysInMonth;
    WithinYear(y, m, 1);
    WithinYear(y, m, d);
    WithinYear(y, m, DaysInMonth(y, m) + 1);
    CarryDays(y, m, DaysInMonth(y, m) + 1);
    CarryMonths(y, 13, 1);
  }

  // ---------------------------------------------------------------- ISO weeks

  /** Going back to the Monday is rounding down to a multiple of seven. */
  lemma BackToMonday(day: int)
    ensures day - ((if Weekday(day) == 0 then 7 else Weekday(day)) - 1) == 7 * (day / 7)
  {
  }

  lemma WeekMondayIs(y: int, week: int)
    ensures WeekMonday(y, week) == 7 * ((YearStart(y) + 3) / 7) + 7 * (week - 1)
    ensures DayNumber(y, 1, 4) == YearStart(y) + 3
  {
    hide YearStart, Weekday;
    BackToMonday(YearStart(y) + 3);
  }

  /** The Monday is a Monday, and January 4 is in week 1. */
  lemma MondayIsMonday(y: int, week: int)
    ensures WeekMonday(y, week) % 7 == 0
    ensures WeekMonday(y, 1) <= DayNumber(y, 1, 4) < WeekMonday(y, 2)
    ensures WeekMonday(y, week) == WeekMonday(y, 1) + 7 * (week - 1)
  {
    hide WeekMonday, YearStart, DayNumber;
    WeekMondayIs(y, week);
    WeekMondayIs(y, 1);
    WeekMondayIs(y, 2);
    SevenDivides((YearStart(y) + 3) / 7 + week - 1);
  }

  lemma SevenDivides(q: int)
    ensures (7 * q) % 7 == 0
  {
    DivUnique(7 * q, 7, q, 0);
  }

  /** Consecutive first Mondays are 52 or 53 weeks apart. */
  lemma WeekYearLength(y: int)
    ensures var gap := WeekMonday(y + 1, 1) - WeekMonday(y, 1); gap == 364 || gap == 371
  {
    hide WeekMonday, YearStart, DayNumber;
    NextYear(y);
    WeekMondayIs(y, 1);
    WeekMondayIs(y + 1, 1);
  }

  function WeeksIn(y: int): int { (WeekMonday(y + 1, 1) - WeekMonday(y, 1)) / 7 }

  predicate ValidWeek(y: int, week: int) { 1 <= week <= WeeksIn(y) }

  lemma FirstMondaysGrow(y: int, z: int)
    requires y <= z
    ensures WeekMonday(y, 1) <= WeekMonday(z, 1)
    decreases z - y
  {
    hide WeekMonday;
    if y < z {
      WeekYearLength(y);
      FirstMondaysGrow(y + 1, z);
    }
  }

  /** isoWeekMonday strictly preserves the order of all valid ISO weeks, year boundaries
      and 53-week years included. */
  lemma WeekOrder(y: int, w: int, y': int, w': int)
    requires ValidWeek(y, w) && ValidWeek(y', w') && (y < y' || (y == y' && w < w'))
    ensures WeekMonday(y, w) < WeekMonday(y', w')
  {
    hide WeekMonday;
    MondayIsMonday(y, w);
    MondayIsMonday(y', w');
    if y < y' {
      WeekYearLength(y);
      FirstMondaysGrow(y + 1, y');
    }
  }

  /** The ISO rule: the valid weeks of a year are exactly those whose Thursday falls in it. */
  lemma ThursdayRule(y: int, w: int)
    ensures ValidWeek(y, w) <==> YearStart(y) <= WeekMonday(y, w) + 3 < YearStart(y + 1)
  {
    hide WeekMonday, YearStart, DayNumber;
    MondayIsMonday(y, w);
    MondayIsMonday(y + 1, 1);
    MondayIsMonday(y + 1, 2);
    WeekYearLength(y);
    WeekMondayIs(y, 1);
    WeekMondayIs(y + 1, 1);
  }

  // ---------------------------------------------------------------- what impossible dates denote

  lemma WithinYear(y: int, m: int, d: int)
    requires 1 <= m <= 12
    ensures DayNumber(y, m, d) == YearStart(y) + DaysBefore(y, m) + d - 1
  {
    hide YearStart, DaysBefore;
    assert (m - 1) / 12 == 0 && (m - 1) % 12 == m - 1;
  }

  /** Months outside the year denote those of another year. */
  lemma CarryMonths(y: int, m: int, d: int)
    ensures DayNumber(y, m, d) == DayNumber(y + (m - 1) / 12, (m - 1) % 12 + 1, d)
  {
    hide YearStart, DaysBefore;
    assert ((m - 1) % 12) / 12 == 0 && ((m - 1) % 12) % 12 == (m - 1) % 12;
  }

  lemma CarryDays(y: int, m: int, d: int)
    requires 1 <= m <= 12
    ensures DayNumber(y, m, d)
         == if m == 12 then DayNumber(y + 1, 1, d - DaysInMonth(y, m)) else DayNumber(y, m + 1, d - DaysInMonth(y, m))
  {
    hide YearStart, DayNumber, DaysInMonth, YearLength;
    WithinYear(y, m, d);
    if m == 12 {
      WithinYear(y + 1, 1, d - DaysInMonth(y, m));
      WholeYear(y);
      NextYear(y);
    } else {
      WithinYear(y, m + 1, d - DaysInMonth(y, m));
    }
  }

  /** Whatever the day, some valid date has its number. */
  lemma NormalDate(y: int, m: int, d: int) returns (y': int, m': int, d': int)
    requires 1 <= m <= 12
    ensures ValidDate(y', m', d') && DayNumber(y', m', d') == DayNumber(y, m, d)
    decreases if d < 1 then 1 - d else d
  {
    hide DayNumber;
    if d < 1 {
      var py, pm := if m == 1 then y - 1 else y, if m == 1 then 12 else m - 1;
      var pd := d + DaysInMonth(py, pm);
      CarryDays(py, pm, pd);
      if pd < 1 {
        y', m', d' := NormalDate(py, pm, pd);
      } else {
        y', m', d' := py, pm, pd;
      }
    } else if d > DaysInMonth(y, m) {
      CarryDays(y, m, d);
      y', m', d' := NormalDate(if m == 12 then y + 1 else y, if m == 12 then 1 else m + 1, d - DaysInMonth(y, m));
    } else {
      y', m', d' := y, m, d;
    }
  }

  lemma CarryWeeks(y: int, w: int)
    ensures WeekMonday(y, w) == WeekMonday(y + 1, w - WeeksIn(y)) && 52 <= WeeksIn(y) <= 53
  {
    hide WeekMonday;
    WeekYearLength(y);
    MondayIsMonday(y, w);
    MondayIsMonday(y + 1, w - WeeksIn(y));
  }

  /** Whatever the week, some valid ISO week has its Monday. */
  lemma NormalWeek(y: int, w: int) returns (y': int, w': int)
    ensures ValidWeek(y', w') && WeekMonday(y', w') == WeekMonday(y, w)
    decreases if w < 1 then 1 - w else w
  {
    hide WeekMonday, WeeksIn;
    CarryWeeks(y, w);
    if w < 1 {
      CarryWeeks(y - 1, w + WeeksIn(y - 1));
      if w + WeeksIn(y - 1) < 1 {
        y', w' := NormalWeek(y - 1, w + WeeksIn(y - 1));
      } else {
        y', w' := y - 1, w + WeeksIn(y - 1);
      }
    } else if w > WeeksIn(y) {
      y', w' := NormalWeek(y + 1, w - WeeksIn(y));
    } else {
      y', w' := y, w;
    }
  }

  /** The days of a year before each month. */
  lemma MonthStarts(y: int)
    ensures var leap := if y % 4 == 0 && (y % 100 != 0 || y % 400 == 0) then 1 else 0;
            && DaysBefore(y, 1) == 0 && DaysBefore(y, 2) == 31 && DaysBefore(y, 3) == 59 + leap
            && DaysBefore(y, 4) == 90 + leap && DaysBefore(y, 5) == 120 + leap && DaysBefore(y, 6) == 151 + leap
            && DaysBefore(y, 7) == 181 + leap && DaysBefore(y, 8) == 212 + leap && DaysBefore(y, 9) == 243 + leap
            && DaysBefore(y, 10) == 273 + leap && DaysBefore(y, 11) == 304 + leap && DaysBefore(y, 12) == 334 + leap
            && DaysBefore(y, 13) == 365 + leap
  {
    var leap := if y % 4 == 0 && (y % 100 != 0 || y % 400 == 0) then 1 else 0;
    assert DaysBefore(y, 3) == 59 + leap;
    assert DaysBefore(y, 5) == 120 + leap;
    assert DaysBefore(y, 7) == 181 + leap;
    assert DaysBefore(y, 9) == 243 + leap;
    assert DaysBefore(y, 11) == 304 + leap;
  }
}
