/** The search for the next fire, minute by minute, and exactly when it finds none. */
module CronSearch {
  import opened CronParse
  import opened Calendar

  /** Minutes count from the Unix epoch; `zone` is the local offset from UTC in whole minutes. */
  const DAY := 1440

  function DayOf(local: int): int {
    local / DAY + UNIX_EPOCH
  }

  /** The day rule: when both day fields are restricted either may match, else both must. */
  predicate DayMatches(c: Spec, day: int) {
    var d := Civil(day);
    var domOk, dowOk := d.day in c.dom, Weekday(day) in c.dow;
    d.month in c.month && if !c.domStar && !c.dowStar then domOk || dowOk else domOk && dowOk
  }

  predicate Matches(c: Spec, local: int) {
    local % 60 in c.minute && local / 60 % 24 in c.hour && DayMatches(c, DayOf(local))
  }

  /** The local minute of minute k, `offset` seconds east of UTC. */
  function Local(k: int, offset: int): int {
    (60 * k + offset) / 60
  }

  predicate Fires(c: Spec, offset: int, k: int) {
    Matches(c, Local(k, offset))
  }

  const MAX_MINUTES := 5 * 366 * 24 * 60

  /** k is a minute the search looks at. */
  predicate InWindow(from: int, k: int) {
    from < k <= from + MAX_MINUTES
  }

  // ----- reaching a date -----

  /** The minute at h:mi on a local day. */
  function MinuteOn(day: int, h: int, mi: int, offset: int): int {
    (day - UNIX_EPOCH) * DAY + h * 60 + mi - offset / 60
  }

  lemma LocalIs(k: int, offset: int)
    ensures Local(k, offset) == k + offset / 60
  {}

  lemma ClockIs(x: int, h: int, mi: int)
    requires 0 <= h < 24 && 0 <= mi < 60
    ensures var local := x * DAY + h * 60 + mi; local / DAY == x && local / 60 % 24 == h && local % 60 == mi
  {
    var local := x * DAY + h * 60 + mi;
    assert local / 60 == x * 24 + h;
  }

  lemma FiresOn(c: Spec, day: int, h: int, mi: int, offset: int)
    requires 0 <= h < 24 && 0 <= mi < 60
    ensures Fires(c, offset, MinuteOn(day, h, mi, offset)) <==> h in c.hour && mi in c.minute && DayMatches(c, day)
  {
    hide DayMatches;
    var k := MinuteOn(day, h, mi, offset);
    LocalIs(k, offset);
    ClockIs(day - UNIX_EPOCH, h, mi);
  }

  /** Every minute is h:mi of its local day. */
  lemma SplitMinute(k: int, offset: int) returns (day: int, h: int, mi: int)
    ensures 0 <= h < 24 && 0 <= mi < 60 && k == MinuteOn(day, h, mi, offset)
  {
    LocalIs(k, offset);
    var local := Local(k, offset);
    day, h, mi := DayOf(local), local / 60 % 24, local % 60;
    assert local / 60 == (local / DAY) * 24 + local / 60 % 24;
  }

  function YearAt(k: int, offset: int): int {
    Civil(DayOf(Local(k, offset))).year
  }

  /** The four whole years after the current one are searched through. */
  lemma WholeYears(from: int, offset: int, day: int, h: int, mi: int)
    requires 0 <= h < 24 && 0 <= mi < 60
    requires Jan1(YearAt(from, offset) + 1) <= day < Jan1(YearAt(from, offset) + 5)
    ensures InWindow(from, MinuteOn(day, h, mi, offset))
  {
    hide YearAt, Jan1, DayOf, Local, InWindow, MinuteOn;
    YearAtIs(from, offset);
    FiveYears(YearAt(from, offset));
    DaysAhead(from, offset, day, h, mi);
  }

  lemma YearAtIs(k: int, offset: int)
    ensures Jan1(YearAt(k, offset)) <= DayOf(Local(k, offset)) < Jan1(YearAt(k, offset) + 1)
  {
    hide DayOf, Local, Jan1, MonthStart, DaysInMonth;
    var d := Civil(DayOf(Local(k, offset)));
    MonthInYear(d.year, d.month, d.day);
  }

  lemma DaysAhead(from: int, offset: int, day: int, h: int, mi: int)
    requires 0 <= h < 24 && 0 <= mi < 60
    requires DayOf(Local(from, offset)) < day <= DayOf(Local(from, offset)) + 1826
    ensures InWindow(from, MinuteOn(day, h, mi, offset))
  {
    LocalIs(from, offset);
    var local := Local(from, offset);
    assert (local / DAY) * DAY <= local < (local / DAY) * DAY + DAY;
  }

  lemma FiveYears(y: int)
    ensures Jan1(y + 5) <= Jan1(y) + 1827
  {
    hide Jan1;
    NextYear(y); NextYear(y + 1); NextYear(y + 2); NextYear(y + 3); NextYear(y + 4);
  }

  // ----- exactly when nothing fires -----

  const COMMON_YEAR := 2001

  /** Some named month has some named day in every year. */
  predicate HasCommonDate(c: Spec)
    requires forall m <- c.month :: 1 <= m <= 12
  {
    exists m <- c.month, d <- c.dom :: d <= DaysInMonth(COMMON_YEAR, m)
  }

  /** A 29 February is named, and one falls in the search with a named time still to come. */
  ghost predicate LeapFire(c: Spec, from: int, offset: int) {
    && 2 in c.month && 29 in c.dom
    && exists y, h, mi :: LeapMinute(c, from, offset, y, h, mi)
  }

  predicate LeapMinute(c: Spec, from: int, offset: int, y: int, h: int, mi: int) {
    Leap(y) && h in c.hour && mi in c.minute && InWindow(from, MinuteOn(DayNumber(y, 2, 29), h, mi, offset))
  }

  ghost predicate CannotFire(c: Spec, from: int, offset: int)
    requires WellFormed(c)
  {
    c.dowStar && !HasCommonDate(c) && !LeapFire(c, from, offset)
  }

  ghost predicate Fails(c: Spec, from: int, offset: int) {
    forall k | InWindow(from, k) :: !Fires(c, offset, k)
  }

  lemma ATime(c: Spec) returns (h: int, mi: int)
    requires WellFormed(c)
    ensures h in c.hour && mi in c.minute && 0 <= h < 24 && 0 <= mi < 60
  {
    h := AnyOf(c.hour);
    mi := AnyOf(c.minute);
  }

  /** A day of next year that matches is found. */
  lemma MatchingDayFires(c: Spec, from: int, offset: int, m: int, d: int)
    requires WellFormed(c) && ValidDate(YearAt(from, offset) + 1, m, d)
    requires DayMatches(c, DayNumber(YearAt(from, offset) + 1, m, d))
    ensures !Fails(c, from, offset)
  {
    hide DayMatches, Fires, InWindow, YearAt;
    var y := YearAt(from, offset) + 1;
    var day := DayNumber(y, m, d);
    var h, mi := ATime(c);
    MonthInYear(y, m, d);
    YearsAscend(y + 1, y + 4);
    WholeYears(from, offset, day, h, mi);
    FiresOn(c, day, h, mi, offset);
    assert Fires(c, offset, MinuteOn(day, h, mi, offset));
  }

  lemma DateMatches(c: Spec, y: int, m: int, d: int)
    requires ValidDate(y, m, d)
    ensures var dowOk := Weekday(DayNumber(y, m, d)) in c.dow;
            DayMatches(c, DayNumber(y, m, d)) <==>
              m in c.month && if !c.domStar && !c.dowStar then d in c.dom || dowOk else d in c.dom && dowOk
  {
    hide DayNumber, Civil;
    CivilOfDayNumber(y, m, d);
  }

  /** One of the first seven days of a month is any given day of the week. */
  lemma WeekdayInMonth(y: int, m: int, w: int) returns (d: int)
    requires 1 <= m <= 12 && 0 <= w < 7
    ensures 1 <= d <= 7 && Weekday(DayNumber(y, m, d)) == w
  {
    hide DayNumber;
    var first := DayNumber(y, m, 1);
    var f := Weekday(first);
    d := 1 + (if f <= w then w - f else w - f + 7);
    SameMonth(y, m, d);
    WeekdayAfter(first, d - 1, w);
  }

  lemma SameMonth(y: int, m: int, d: int)
    requires 1 <= m <= 12
    ensures DayNumber(y, m, d) == DayNumber(y, m, 1) + d - 1
  {}

  lemma WeekdayAfter(n: int, k: int, w: int)
    requires 0 <= w < 7 && (Weekday(n) + k == w || Weekday(n) + k == w + 7)
    ensures Weekday(n + k) == w
  {
    var q := (n + 6) / 7;
    assert n + k + 6 == 7 * q + (Weekday(n) + k);
    assert n + k + 6 == 7 * q + w || n + k + 6 == 7 * (q + 1) + w;
  }

  lemma RestrictedWeekdayFires(c: Spec, from: int, offset: int)
    requires WellFormed(c) && !c.dowStar
    ensures !Fails(c, from, offset)
  {
    hide Fires, InWindow, YearAt, DayMatches, Weekday, DayNumber;
    var y := YearAt(from, offset) + 1;
    var m := AnyOf(c.month);
    var w := AnyOf(c.dow);
    var d := WeekdayInMonth(y, m, w);
    DateMatches(c, y, m, d);
    MatchingDayFires(c, from, offset, m, d);
  }

  lemma CommonDateFires(c: Spec, from: int, offset: int)
    requires WellFormed(c) && c.dowStar && HasCommonDate(c)
    ensures !Fails(c, from, offset)
  {
    hide Fires, InWindow, YearAt, DayMatches, DayNumber;
    var y := YearAt(from, offset) + 1;
    var m, d :| m in c.month && d in c.dom && d <= DaysInMonth(COMMON_YEAR, m);
    DateMatches(c, y, m, d);
    MatchingDayFires(c, from, offset, m, d);
  }

  lemma LeapFireFires(c: Spec, from: int, offset: int)
    requires WellFormed(c) && c.dowStar && LeapFire(c, from, offset)
    ensures !Fails(c, from, offset)
  {
    hide Fires, InWindow, DayMatches, DayNumber;
    var y, h, mi :| LeapMinute(c, from, offset, y, h, mi);
    DateMatches(c, y, 2, 29);
    FiresOn(c, DayNumber(y, 2, 29), h, mi, offset);
    assert Fires(c, offset, MinuteOn(DayNumber(y, 2, 29), h, mi, offset));
  }

  lemma OnlyTheseFire(c: Spec, from: int, offset: int, k: int)
    requires WellFormed(c) && c.dowStar && InWindow(from, k) && Fires(c, offset, k)
    ensures HasCommonDate(c) || LeapFire(c, from, offset)
  {
    var day, h, mi := SplitMinute(k, offset);
    FiresOn(c, day, h, mi, offset);
    hide Fires, InWindow, DayMatches, DayNumber, Civil, MinuteOn;
    var d := Civil(day);
    DateMatches(c, d.year, d.month, d.day);
    assert d.day in c.dom && d.month in c.month;
    if d.day > DaysInMonth(COMMON_YEAR, d.month) {
      assert d.month == 2 && d.day == 29 && Leap(d.year);
      assert LeapMinute(c, from, offset, d.year, h, mi);
    }
  }

  /** The search fails exactly when the day of the week is a literal `*`, no named date exists in a common
      year, and no 29 February it names falls in the search. */
  lemma FailsExactly(c: Spec, from: int, offset: int)
    requires WellFormed(c)
    ensures Fails(c, from, offset) <==> CannotFire(c, from, offset)
  {
    hide Fires, InWindow, HasCommonDate, LeapFire;
    if !c.dowStar { RestrictedWeekdayFires(c, from, offset); }
    else if HasCommonDate(c) { CommonDateFires(c, from, offset); }
    else if LeapFire(c, from, offset) { LeapFireFires(c, from, offset); }
    else {
      forall k | InWindow(from, k) ensures !Fires(c, offset, k) {
        if Fires(c, offset, k) { OnlyTheseFire(c, from, offset, k); }
      }
    }
  }

  /** A spec naming 29 February is served whenever one of the next four years is a leap year: only the
      eight-year gap around a skipped century leap year can be too long. */
  lemma LeapYearNear(c: Spec, from: int, offset: int, y: int)
    requires WellFormed(c) && 2 in c.month && 29 in c.dom
    requires YearAt(from, offset) < y <= YearAt(from, offset) + 4 && Leap(y)
    ensures LeapFire(c, from, offset)
  {
    hide InWindow, YearAt;
    var h, mi := ATime(c);
    MonthInYear(y, 2, 29);
    YearsAscend(YearAt(from, offset) + 1, y);
    YearsAscend(y + 1, YearAt(from, offset) + 5);
    WholeYears(from, offset, DayNumber(y, 2, 29), h, mi);
    assert LeapMinute(c, from, offset, y, h, mi);
  }

  /** The next fire strictly after `fromMillis`, in milliseconds. */
  method CronNext(expr: string, fromMillis: int, offset: int) returns (r: Result<int>)
    ensures SpecOf(expr).Err? ==> r == Err(SpecOf(expr).e)
    ensures SpecOf(expr).Ok? && r.Ok? ==>
              var k := r.v / 60000;
              && r.v == 60000 * k && fromMillis < r.v <= fromMillis + 2_635_200 * 60_000 && Fires(SpecOf(expr).v, offset, k)
              && forall j | fromMillis < 60000 * j < r.v :: !Fires(SpecOf(expr).v, offset, j)
    ensures SpecOf(expr).Ok? ==>
              && WellFormed(SpecOf(expr).v)
              && (r.Err? <==> CannotFire(SpecOf(expr).v, fromMillis / 60000, offset)) && (r.Err? ==> r.e == NoFire)
    ensures SpecOf(expr).Ok? && r.Err? ==>
              forall j | fromMillis / 60_000 < j <= fromMillis / 60_000 + 2_635_200 :: !Fires(SpecOf(expr).v, offset, j)
  {
    hide Fires, SpecOf, CannotFire, WellFormed;
    var parsed := ParseCron(expr);
    if parsed.Err? { return Err(parsed.e); }
    var c := parsed.v;
    SpecIsWellFormed(expr);
    FailsExactly(c, fromMillis / 60000, offset);
    var from := fromMillis / 60000;
    var t := from + 1;
    for i := 0 to MAX_MINUTES
      invariant t == from + 1 + i
      invariant forall j | from < j < t :: !Fires(c, offset, j)
    {
      if Fires(c, offset, t) {
        return Ok(60000 * t);
      }
      t := t + 1;
    }
    r := Err(NoFire);
  }
}
