/** The proleptic Gregorian calendar: day numbers count from 1 January of year 0. */
module Calendar {
  predicate Leap(y: int) {
    y % 4 == 0 && (y % 100 != 0 || y % 400 == 0)
  }

  function DaysInMonth(y: int, m: int): (d: int)
    requires 1 <= m <= 12
    ensures 28 <= d <= 31
  {
    if m == 2 then (if Leap(y) then 29 else 28)
    else if m == 4 || m == 6 || m == 9 || m == 11 then 30
    else 31
  }

  predicate ValidDate(y: int, m: int, d: int) {
    1 <= m <= 12 && 1 <= d <= DaysInMonth(y, m)
  }

  /** The day number of 1 January. */
  function Jan1(y: int): int {
    365 * y + (y + 3) / 4 - (y + 99) / 100 + (y + 399) / 400
  }

  function YearLength(y: int): int {
    if Leap(y) then 366 else 365
  }

  /** Days of the year before month m. */
  function MonthStart(y: int, m: int): (d: int)
    requires 1 <= m <= 13
    ensures 28 * (m - 1) <= d <= 31 * (m - 1)
    decreases m
  {
    if m == 1 then 0 else MonthStart(y, m - 1) + DaysInMonth(y, m - 1)
  }

  function DayNumber(y: int, m: int, d: int): int
    requires 1 <= m <= 12
  {
    Jan1(y) + MonthStart(y, m) + d - 1
  }

  /** The year a day of the 400-year cycle is in, searching upwards. */
  function YearUp(n: int, y: int): (r: int)
    requires Jan1(y) <= n
    ensures Jan1(r) <= n < Jan1(r + 1)
    decreases n - Jan1(y)
  {
    NextYear(y);
    if n < Jan1(y + 1) then y else YearUp(n, y + 1)
  }

  const CYCLE := 146097

  function YearOf(n: int): (y: int)
    ensures Jan1(y) <= n < Jan1(y + 1)
  {
    var q, r := n / CYCLE, n % CYCLE;
    var y := YearUp(r, 0);
    Cycle(y, q);
    Cycle(y + 1, q);
    assert n == CYCLE * q + r;
    400 * q + y
  }

  function MonthFrom(y: int, m: int, rest: int): (r: (int, int))
    requires 1 <= m <= 12 && 0 <= rest && MonthStart(y, m) + rest < YearLength(y)
    ensures ValidDate(y, r.0, r.1) && MonthStart(y, r.0) + r.1 - 1 == MonthStart(y, m) + rest
    decreases 12 - m
  {
    MonthsFill(y);
    if rest < DaysInMonth(y, m) then (m, rest + 1)
    else MonthFrom(y, m + 1, rest - DaysInMonth(y, m))
  }

  datatype Date = Date(year: int, month: int, day: int)

  function Civil(n: int): (d: Date)
    ensures ValidDate(d.year, d.month, d.day) && DayNumber(d.year, d.month, d.day) == n
  {
    var y := YearOf(n);
    NextYear(y);
    var (m, d) := MonthFrom(y, 1, n - Jan1(y));
    Date(y, m, d)
  }

  /** 0 is Sunday. */
  function Weekday(n: int): (w: int)
    ensures 0 <= w < 7
  {
    (n + 6) % 7
  }

  const UNIX_EPOCH := 719528

  lemma Step4(y: int)
    ensures (y + 4) / 4 == (y + 3) / 4 + (if y % 4 == 0 then 1 else 0)
  {}

  lemma Step100(y: int)
    ensures (y + 100) / 100 == (y + 99) / 100 + (if y % 100 == 0 then 1 else 0)
    ensures y % 100 == 0 ==> y % 4 == 0
  {}

  lemma Step400(y: int)
    ensures (y + 400) / 400 == (y + 399) / 400 + (if y % 400 == 0 then 1 else 0)
    ensures y % 400 == 0 ==> y % 100 == 0
  {}

  lemma NextYear(y: int)
    ensures Jan1(y + 1) == Jan1(y) + YearLength(y)
  {
    Step4(y);
    Step100(y);
    Step400(y);
  }

  lemma Cycles(x: int, q: int)
    ensures (x + 400 * q) / 4 == x / 4 + 100 * q
    ensures (x + 400 * q) / 100 == x / 100 + 4 * q
    ensures (x + 400 * q) / 400 == x / 400 + q
  {}

  lemma Cycle(y: int, q: int)
    ensures Jan1(y + 400 * q) == Jan1(y) + CYCLE * q
  {
    Cycles(y + 3, q);
    Cycles(y + 99, q);
    Cycles(y + 399, q);
  }

  lemma MonthsFill(y: int)
    ensures MonthStart(y, 13) == YearLength(y)
    ensures forall m | 1 <= m <= 12 :: MonthStart(y, m + 1) == MonthStart(y, m) + DaysInMonth(y, m)
  {
    assert MonthStart(y, 13) == MonthStart(y, 12) + 31;
    assert MonthStart(y, 12) == MonthStart(y, 11) + 30;
    assert MonthStart(y, 11) == MonthStart(y, 10) + 31;
    assert MonthStart(y, 10) == MonthStart(y, 9) + 30;
    assert MonthStart(y, 9) == MonthStart(y, 8) + 31;
    assert MonthStart(y, 8) == MonthStart(y, 7) + 31;
    assert MonthStart(y, 7) == MonthStart(y, 6) + 30;
    assert MonthStart(y, 6) == MonthStart(y, 5) + 31;
    assert MonthStart(y, 5) == MonthStart(y, 4) + 30;
    assert MonthStart(y, 4) == MonthStart(y, 3) + 31;
    assert MonthStart(y, 3) == MonthStart(y, 2) + DaysInMonth(y, 2);
    assert MonthStart(y, 2) == 31;
  }

  lemma {:induction false} YearsAscend(a: int, b: int)
    requires a <= b
    ensures Jan1(a) + 365 * (b - a) <= Jan1(b) <= Jan1(a) + 366 * (b - a)
    decreases b - a
  {
    if a < b {
      NextYear(b - 1);
      YearsAscend(a, b - 1);
    }
  }

  lemma {:induction false} MonthsAscend(y: int, a: int, b: int)
    requires 1 <= a <= b <= 13
    ensures MonthStart(y, a) <= MonthStart(y, b)
    ensures a < b ==> MonthStart(y, a) + DaysInMonth(y, a) <= MonthStart(y, b)
    decreases b - a
  {
    if a < b { MonthsAscend(y, a, b - 1); }
  }

  lemma MonthInYear(y: int, m: int, d: int)
    requires ValidDate(y, m, d)
    ensures Jan1(y) <= DayNumber(y, m, d) < Jan1(y + 1)
  {
    MonthsFill(y);
    MonthsAscend(y, m, 13);
    NextYear(y);
  }

  /** A day has one date: the day number of a real date leads back to it. */
  lemma CivilOfDayNumber(y: int, m: int, d: int)
    requires ValidDate(y, m, d)
    ensures Civil(DayNumber(y, m, d)) == Date(y, m, d)
  {
    hide DayNumber, Jan1, Civil;
    var n := DayNumber(y, m, d);
    var c := Civil(n);
    assert c.year == y by {
      MonthInYear(y, m, d);
      MonthInYear(c.year, c.month, c.day);
      if c.year < y { YearsAscend(c.year + 1, y); }
      if y < c.year { YearsAscend(y + 1, c.year); }
    }
    SameDay(y, m, d, c.month, c.day);
  }

  lemma SameDay(y: int, m: int, d: int, m1: int, d1: int)
    requires ValidDate(y, m, d) && ValidDate(y, m1, d1) && DayNumber(y, m, d) == DayNumber(y, m1, d1)
    ensures m == m1 && d == d1
  {
    hide MonthStart, DaysInMonth;
    if m1 < m { MonthsAscend(y, m1, m); }
    if m < m1 { MonthsAscend(y, m, m1); }
  }

  function MonthLength(y: int, m: int): int
    requires 1 <= m <= 12
  {
    [31, if y % 400 == 0 || (y % 4 == 0 && y % 100 != 0) then 29 else 28, 31, 30, 31, 30, 31, 31, 30, 31, 30, 31][m - 1]
  }

  lemma MonthLengthIs(y: int, m: int)
    requires 1 <= m <= 12
    ensures MonthLength(y, m) == DaysInMonth(y, m)
  {}

  lemma MonthNumbers(y: int, m: int)
    requires 1 <= m <= 12
    ensures MonthStart(y, 1) == 0
    ensures if m < 12 then MonthStart(y, m + 1) == MonthStart(y, m) + DaysInMonth(y, m)
            else MonthStart(y, m) + DaysInMonth(y, m) == YearLength(y)
  {
    MonthsFill(y);
  }

  /** The day after: the next of its month, or the first of the next one. */
  lemma NextDay(n: int)
    ensures var d := Civil(n);
            Civil(n + 1) == if d.day < MonthLength(d.year, d.month) then Date(d.year, d.month, d.day + 1)
                            else if d.month < 12 then Date(d.year, d.month + 1, 1)
                            else Date(d.year + 1, 1, 1)
  {
    hide Civil, Jan1, MonthStart, MonthLength, YearLength;
    var d := Civil(n);
    MonthLengthIs(d.year, d.month);
    MonthNumbers(d.year, d.month);
    MonthNumbers(d.year + 1, 1);
    NextYear(d.year);
    if d.day < DaysInMonth(d.year, d.month) {
      CivilOfDayNumber(d.year, d.month, d.day + 1);
    } else if d.month < 12 {
      CivilOfDayNumber(d.year, d.month + 1, 1);
    } else {
      CivilOfDayNumber(d.year + 1, 1, 1);
    }
  }
}
