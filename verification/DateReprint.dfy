/** Parsing then printing: when a text that parses is the text the printer gives. */
module DateReprint {
  import opened Text
  import opened DateOps
  import opened DateFormat
  import opened DateRoundTrip
  import Calendar
  import opened Options

  /** The field an operation names; None for a literal. */
  datatype Field = FNone | FYear | FMonth | FDay | FWeekday | FHour | FMinute | FSecond | FFraction | FMeridiem | FOffset

  function FieldNamed(op: Op): Field {
    match op
    case Lit(_) => FNone
    case Year2 => FYear
    case Year4 => FYear
    case MonthNum(_) => FMonth
    case MonthShort => FMonth
    case MonthLong => FMonth
    case Day(_) => FDay
    case WeekShort => FWeekday
    case WeekLong => FWeekday
    case Hour24(_) => FHour
    case Hour12(_) => FHour
    case Minute(_) => FMinute
    case Second(_) => FSecond
    case Fraction(_) => FFraction
    case AmPm => FMeridiem
    case _ => FOffset
  }

  predicate Names(ops: seq<Op>, k: Field) {
    ops != [] && (FieldNamed(ops[0]) == k || Names(ops[1..], k))
  }

  /** Every number padded, no offset, no field twice. */
  predicate Strict(ops: seq<Op>) {
    ops == [] ||
    (&& WellFormed(ops[0]) && !Unpadded(ops[0]) && FieldNamed(ops[0]) != FOffset
     && (FieldNamed(ops[0]) != FNone ==> !Names(ops[1..], FieldNamed(ops[0])))
     && Strict(ops[1..]))
  }

  /** The text of the seconds field in a text the operations read. */
  function SecondsText(ops: seq<Op>, s: string, f: Fields): string
    requires forall op <- ops :: WellFormed(op)
    decreases ops
  {
    if ops == [] then ""
    else if ops[0].Second? && |s| >= 2 then s[..2]
    else match OpRead(ops[0], s, f)
      case None => ""
      case Some((g, rest)) => SecondsText(ops[1..], rest, g)
  }

  /** The text that sets op's field to what it is in g; `sixty` for seconds written as 60. */
  function FieldText(op: Op, g: Fields, sixty: bool): string
    requires WellFormed(op) && Holds(op, g)
  {
    match op
    case Lit(text) => text
    case Year2 => Pad(g.year - 2000, 2)
    case Year4 => Pad(g.year, 4)
    case MonthNum(pad) => Pad(g.month, pad)
    case MonthShort => Name(MONTHS, g.month - 1, true)
    case MonthLong => Name(MONTHS, g.month - 1, false)
    case Day(pad) => Pad(g.day, pad)
    case WeekShort => Name(WEEKDAYS, g.weekday.value, true)
    case WeekLong => Name(WEEKDAYS, g.weekday.value, false)
    case Hour24(pad) => Pad(g.hour, pad)
    case Hour12(pad) => Pad(g.hour, pad)
    case Minute(pad) => Pad(g.minute, pad)
    case Second(pad) => if sixty then "60" else Pad(g.second, pad)
    case Fraction(pad) => Pad(g.nanos / Pow10(9 - pad), pad)
    case AmPm => if g.pm then "PM" else "AM"
    case _ => ""
  }

  /** What reading op leaves true of its field. */
  predicate Holds(op: Op, g: Fields)
    requires WellFormed(op)
  {
    match op
    case Year2 => 2000 <= g.year < 2100
    case Year4 => 0 <= g.year <= 9999
    case MonthNum(_) => 1 <= g.month <= 12
    case MonthShort => 1 <= g.month <= 12
    case MonthLong => 1 <= g.month <= 12
    case Day(_) => 1 <= g.day <= 31
    case WeekShort => g.weekday.Some? && 0 <= g.weekday.value < 7
    case WeekLong => g.weekday.Some? && 0 <= g.weekday.value < 7
    case Hour24(_) => 0 <= g.hour < 24
    case Hour12(_) => 1 <= g.hour <= 12 && g.have12
    case Minute(_) => 0 <= g.minute < 60
    case Second(_) => 0 <= g.second < 60
    case Fraction(pad) => 0 <= g.nanos < 1_000_000_000 && g.nanos % Pow10(9 - pad) == 0
    case AmPm => g.havePm
    case _ => true
  }

  // ----- one operation -----

  /** A padded number that was read is the padding of its value. */
  lemma DigitsForth(s: string, n: nat)
    requires n >= 1 && TakeDigits(s, n, n).Some?
    ensures var (v, rest) := TakeDigits(s, n, n).value;
            v < Pow10(n) && s == Pad(v, n) + rest
  {
    var (v, rest) := TakeDigits(s, n, n).value;
    var t := s[..n];
    ValueBelow(t);
    PadIs(v, n, n);
    ValueInjective(t, Pad(v, n));
    assert s == t + rest;
  }

  lemma NumberForth(s: string, lo: int, hi: int)
    requires TakeNumber(s, 2, lo, hi).Some?
    ensures var (v, rest) := TakeNumber(s, 2, lo, hi).value; lo <= v <= hi && s == Pad(v, 2) + rest
  {
    DigitsForth(s, 2);
  }

  lemma {:induction false} NameForth(s: string, names: seq<string>, short: bool, k: nat)
    requires k <= |names| && TakeName(s, names, short, k).Some?
    ensures var (i, rest) := TakeName(s, names, short, k).value; k <= i < |names| && s == Name(names, i, short) + rest
    decreases |names| - k
  {
    if !StartsWith(s, Name(names, k, short)) { NameForth(s, names, short, k + 1); }
  }

  lemma FractionForth(s: string, pad: nat)
    requires 1 <= pad <= 9 && TakeDigits(s, pad, pad).Some?
    ensures var (v, rest) := TakeDigits(s, pad, pad).value;
            var nanos := v * Pow10(9 - pad);
            && 0 <= nanos < 1_000_000_000 && nanos % Pow10(9 - pad) == 0 && nanos / Pow10(9 - pad) == v
            && s == Pad(v, pad) + rest
  {
    hide TakeDigits, Pad, Pow10;
    DigitsForth(s, pad);
    var (v, rest) := TakeDigits(s, pad, pad).value;
    Scaled(v, pad);
    MultipleOf(v, Pow10(9 - pad));
  }

  lemma MultipleOf(v: nat, p: nat)
    requires p >= 1
    ensures v * p / p == v && v * p % p == 0
  {
    DivUnique(v * p, p, v, 0);
    assert v * p == p * v;
  }

  lemma Scaled(v: nat, pad: nat)
    requires 1 <= pad <= 9 && v < Pow10(pad)
    ensures v * Pow10(9 - pad) < 1_000_000_000
  {
    PowAdds(pad, 9 - pad);
    Billion();
    var p := Pow10(9 - pad);
    assert v * p <= (Pow10(pad) - 1) * p < Pow10(pad) * p;
  }

  lemma {:induction false} PowAdds(a: nat, b: nat)
    ensures Pow10(a) * Pow10(b) == Pow10(a + b)
  {
    if a > 0 { PowAdds(a - 1, b); }
  }

  /** An operation reads the text its field then gives, unless it is seconds written as 60. */
  lemma OpForth(op: Op, s: string, f: Fields)
    requires WellFormed(op) && !Unpadded(op) && FieldNamed(op) != FOffset && OpRead(op, s, f).Some?
    ensures var (g, rest) := OpRead(op, s, f).value;
            && Holds(op, g) && s == FieldText(op, g, op.Second? && s[..2] == "60") + rest
            && (op.Second? ==> |s| >= 2 && (s[..2] == "60" ==> g.second == 59))
  {
    hide TakeDigits, TakeNumber, TakeName, Pad, Name, Pow10;
    Hundreds();
    match op
    case Lit(text) =>
    case Year2 => DigitsForth(s, 2);
    case Year4 => DigitsForth(s, 4);
    case MonthNum(pad) => NumberForth(s, 1, 12);
    case MonthShort => NameForth(s, MONTHS, true, 0);
    case MonthLong => NameForth(s, MONTHS, false, 0);
    case Day(pad) => NumberForth(s, 1, 31);
    case WeekShort => NameForth(s, WEEKDAYS, true, 0);
    case WeekLong => NameForth(s, WEEKDAYS, false, 0);
    case Hour24(pad) => NumberForth(s, 0, 23);
    case Hour12(pad) => NumberForth(s, 1, 12);
    case Minute(pad) => NumberForth(s, 0, 59);
    case Second(pad) =>
      NumberForth(s, 0, 60);
      SixtyIs(s);
    case Fraction(pad) => FractionForth(s, pad);
    case AmPm =>
    case _ =>
  }

  lemma SixtyIs(s: string)
    requires TakeNumber(s, 2, 0, 60).Some?
    ensures var (v, rest) := TakeNumber(s, 2, 0, 60).value;
            |s| >= 2 && s == s[..2] + rest && (v == 60 <==> s[..2] == "60")
  {
    var (v, rest) := TakeNumber(s, 2, 0, 60).value;
    var n := Leading(s, 2);
    assert n == 2 && v == Value(s[..2]);
    assert "60"[..1] == "6" && "6"[..0] == [] && Value("6") == 6 && Value("60") == 60;
    if v == 60 { ValueInjective(s[..2], "60"); }
  }

  // ----- whole patterns -----

  function FieldTexts(ops: seq<Op>, g: Fields, sixty: bool): string
    requires forall op <- ops :: WellFormed(op) && Holds(op, g)
    decreases ops
  {
    if ops == [] then "" else FieldText(ops[0], g, sixty) + FieldTexts(ops[1..], g, sixty)
  }

  /** Reading other fields leaves this one alone. */
  lemma KeepsOne(op: Op, other: Op, s: string, f: Fields, sixty: bool)
    requires WellFormed(op) && WellFormed(other) && Holds(op, f) && OpRead(other, s, f).Some?
    requires FieldNamed(op) == FNone || FieldNamed(op) != FieldNamed(other)
    ensures var g := OpRead(other, s, f).value.0;
            Holds(op, g) && FieldText(op, g, sixty) == FieldText(op, f, sixty) && (op.Second? ==> g.second == f.second)
  {
    hide TakeDigits, TakeNumber, TakeName, TakeOffset, Pad, Name, Pow10, StartsWith;
  }

  lemma {:induction false} Keeps(op: Op, ops: seq<Op>, s: string, f: Fields, sixty: bool)
    requires WellFormed(op) && (forall o <- ops :: WellFormed(o)) && Holds(op, f) && OpsRead(ops, s, f).Yes?
    requires FieldNamed(op) == FNone || !Names(ops, FieldNamed(op))
    ensures var g := OpsRead(ops, s, f).v.0;
            Holds(op, g) && FieldText(op, g, sixty) == FieldText(op, f, sixty) && (op.Second? ==> g.second == f.second)
    decreases ops
  {
    hide OpRead, Holds, FieldText, FieldNamed, WellFormed;
    if ops != [] {
      assert ops[0] in ops;
      KeepsOne(op, ops[0], s, f, sixty);
      var (g, rest) := OpRead(ops[0], s, f).value;
      Keeps(op, ops[1..], rest, g, sixty);
    }
  }

  /** A text read to its end is the text of the final fields, its seconds written as they were. */
  lemma {:induction false} OpsForth(ops: seq<Op>, s: string, f: Fields)
    requires Strict(ops) && (forall op <- ops :: WellFormed(op))
    requires OpsRead(ops, s, f).Yes? && OpsRead(ops, s, f).v.1 == ""
    ensures var g := OpsRead(ops, s, f).v.0;
            && (forall op <- ops :: Holds(op, g))
            && s == FieldTexts(ops, g, SecondsText(ops, s, f) == "60")
            && (SecondsText(ops, s, f) == "60" ==> g.second == 59 && Names(ops, FSecond))
    decreases ops
  {
    hide OpRead, Holds, FieldText, FieldNamed, WellFormed, Unpadded;
    var g := OpsRead(ops, s, f).v.0;
    if ops != [] {
      var op := ops[0];
      OpForth(op, s, f);
      var (f1, rest) := OpRead(op, s, f).value;
      OpsForth(ops[1..], rest, f1);
      var sixty := SecondsText(ops, s, f) == "60";
      Keeps(op, ops[1..], rest, f1, op.Second? && s[..2] == "60");
      assert forall o :: o in ops <==> o == op || o in ops[1..];
      SecondsHere(op, ops[1..], rest, f1, g);
      Sixties(op, ops[1..], g, sixty, op.Second? && s[..2] == "60", SecondsText(ops[1..], rest, f1) == "60");
    }
  }

  /** If this operation is the seconds field, no later one is. */
  lemma SecondsHere(op: Op, ops: seq<Op>, s: string, f: Fields, g: Fields)
    requires WellFormed(op) && (forall o <- ops :: WellFormed(o))
    requires FieldNamed(op) != FNone ==> !Names(ops, FieldNamed(op))
    ensures op.Second? ==> !Names(ops, FSecond) && SecondsText(ops, s, f) != "60"
    ensures FieldNamed(op) == FSecond <==> op.Second?
  {
    if op.Second? { NoSeconds(ops, s, f); }
  }

  lemma {:induction false} NoSeconds(ops: seq<Op>, s: string, f: Fields)
    requires (forall o <- ops :: WellFormed(o)) && !Names(ops, FSecond)
    ensures SecondsText(ops, s, f) == ""
    decreases ops
  {
    hide OpRead, WellFormed;
    if ops != [] && OpRead(ops[0], s, f).Some? {
      var (g, rest) := OpRead(ops[0], s, f).value;
      NoSeconds(ops[1..], rest, g);
    }
  }

  /** The way seconds are written matters to the seconds field only. */
  lemma Sixties(op: Op, ops: seq<Op>, g: Fields, all: bool, here: bool, later: bool)
    requires WellFormed(op) && Holds(op, g) && forall o <- ops :: WellFormed(o) && Holds(o, g)
    requires op.Second? ==> all == here && !Names(ops, FSecond)
    requires !op.Second? ==> all == later
    ensures FieldText(op, g, all) == FieldText(op, g, here)
    ensures FieldTexts(ops, g, all) == FieldTexts(ops, g, later)
  {
    if op.Second? { SixtyElsewhere(ops, g, all, later); }
  }

  lemma {:induction false} SixtyElsewhere(ops: seq<Op>, g: Fields, a: bool, b: bool)
    requires !Names(ops, FSecond) && forall o <- ops :: WellFormed(o) && Holds(o, g)
    ensures FieldTexts(ops, g, a) == FieldTexts(ops, g, b)
  {
    hide Holds, WellFormed;
    if ops != [] { SixtyElsewhere(ops[1..], g, a, b); }
  }

  /** Seconds written as 60 are never what the printer writes. */
  lemma {:induction false} SixtyDiffers(ops: seq<Op>, g: Fields)
    requires (forall o <- ops :: WellFormed(o) && Holds(o, g)) && Names(ops, FSecond) && g.second == 59
    requires forall o <- ops :: o.Second? ==> o.pad == 2
    ensures FieldTexts(ops, g, true) != FieldTexts(ops, g, false)
  {
    hide Holds, WellFormed;
    var op := ops[0];
    if op.Second? {
      assert Pad(59, 2) == "59" by { assert Digits(59) == "5" + "9"; assert Zeros(0) == ""; }
      assert FieldTexts(ops, g, true)[0] == '6' && FieldTexts(ops, g, false)[0] == '5';
    } else {
      SixtyDiffers(ops[1..], g);
      var a := FieldText(op, g, true);
      assert a == FieldText(op, g, false);
      assert FieldTexts(ops, g, true)[|a|..] == FieldTexts(ops[1..], g, true);
      assert FieldTexts(ops, g, false)[|a|..] == FieldTexts(ops[1..], g, false);
    }
  }

  // ----- from the fields to the instant -----

  /** What a clock can show. */
  predicate Shown(f: Fields) {
    0 <= f.hour < 24 && 0 <= f.minute < 60 && 0 <= f.second < 60 && 1 <= f.month <= 12 && 1 <= f.day <= 31 && f.offset == 0
  }

  lemma OpShown(op: Op, s: string, f: Fields)
    requires WellFormed(op) && FieldNamed(op) != FOffset && Shown(f) && OpRead(op, s, f).Some?
    ensures var g := OpRead(op, s, f).value.0;
            Shown(g) && g.havePm == (f.havePm || op.AmPm?) && g.have12 == (f.have12 || op.Hour12?)
  {
    hide TakeDigits, TakeName, TakeOffset, Pad, Name, StartsWith, Pow10;
    NameIndex(s, MONTHS, true, 0);
    NameIndex(s, MONTHS, false, 0);
  }

  lemma {:induction false} OpsShown(ops: seq<Op>, s: string, f: Fields)
    requires Strict(ops) && (forall op <- ops :: WellFormed(op)) && Shown(f) && OpsRead(ops, s, f).Yes?
    ensures var g := OpsRead(ops, s, f).v.0;
            && Shown(g) && g.havePm == (f.havePm || Has(ops, PAmPm)) && g.have12 == (f.have12 || Has(ops, PTwelve))
    decreases ops
  {
    hide OpRead, Shown;
    if ops != [] {
      OpShown(ops[0], s, f);
      var (g, rest) := OpRead(ops[0], s, f).value;
      OpsShown(ops[1..], rest, g);
    }
  }

  /** Fields whose day and month survive normalisation name a real date, and their own year. */
  lemma DateStands(y: int, m: int, d: int)
    requires 1 <= m <= 12 && 1 <= d <= 31
    requires var c := Calendar.Civil(Calendar.DayNumber(y, m, d)); c.month == m && c.day == d
    ensures Calendar.Civil(Calendar.DayNumber(y, m, d)) == Calendar.Date(y, m, d)
  {
    var n := Calendar.DaysInMonth(y, m);
    if d <= n {
      Calendar.CivilOfDayNumber(y, m, d);
    } else {
      hide Calendar.Civil;
      Calendar.MonthsFill(y);
      assert Calendar.DayNumber(y, m, d) == Calendar.DayNumber(y, m + 1, d - n);
      Calendar.CivilOfDayNumber(y, m + 1, d - n);
    }
  }

  lemma FinishStamp(g: Fields)
    requires Shown(g) && Finish(g).Yes?
    ensures 0 <= HourOf(g) < 24
    ensures var s := StampOf(Finish(g).v);
            && s.year == g.year && s.month == g.month && s.day == g.day && s.hour == HourOf(g) && s.minute == g.minute
            && s.second == g.second && s.nanos == g.nanos && (g.weekday.Some? ==> s.weekday == g.weekday.value)
            && 0 <= s.weekday < 7
  {
    var day := FieldsDay(g);
    assert 0 <= HourOf(g) < 24;
    hide Calendar.Civil, HourOf, StampOf, FieldsDay;
    StampBack(day, HourOf(g), g.minute, g.second, g.nanos, 0);
    assert FieldsDay(g) == Calendar.DayNumber(g.year, g.month, g.day) by { FieldsDayIs(g); }
    DateStands(g.year, g.month, g.day);
  }

  lemma FieldsDayIs(g: Fields)
    requires 1 <= g.month <= 12
    ensures FieldsDay(g) == Calendar.DayNumber(g.year, g.month, g.day)
  {}

  /** The printer gives each field the text it was read from. */
  lemma OpPrints(op: Op, g: Fields, t: Stamp)
    requires WellFormed(op) && Holds(op, g) && FieldNamed(op) != FOffset && Real(t) && Shown(g)
    requires t.year == g.year && t.month == g.month && t.day == g.day && t.minute == g.minute && t.second == g.second
    requires t.nanos == g.nanos && t.hour == HourOf(g) && (g.weekday.Some? ==> t.weekday == g.weekday.value)
    requires op.Hour24? ==> !g.havePm
    requires op.Hour12? || op.AmPm? ==> g.have12 && g.havePm && 1 <= g.hour <= 12
    ensures OpText(op, t) == FieldText(op, g, false)
  {
    hide Pad, Name, Pow10, IntText, HourOf, Hour12Of;
    HourPrints(g);
    match op
    case Fraction(pad) => FractionPrints(g.nanos, pad);
    case _ =>
  }

  /** The clock hour and its half of the day are read back off the hour they make. */
  lemma HourPrints(g: Fields)
    ensures !g.havePm ==> HourOf(g) == g.hour
    ensures g.have12 && g.havePm && 1 <= g.hour <= 12 ==> Hour12Of(HourOf(g)) == g.hour && (HourOf(g) < 12 <==> !g.pm)
  {}

  lemma FractionPrints(nanos: nat, pad: nat)
    requires 1 <= pad <= 9 && nanos < 1_000_000_000
    ensures var f := IntText(nanos + 1_000_000_000)[1..]; pad <= |f| && f[..pad] == Pad(nanos / Pow10(9 - pad), pad)
  {
    NanosText(nanos);
    Billion();
    PadIs(nanos, 9, 9);
    var f := Pad(nanos, 9);
    ValuePrefix(f, pad);
    ValueBelow(f[..pad]);
    PadIs(nanos / Pow10(9 - pad), pad, pad);
    ValueInjective(f[..pad], Pad(nanos / Pow10(9 - pad), pad));
  }

  lemma {:induction false} OpsPrint(ops: seq<Op>, g: Fields, t: Stamp)
    requires Real(t) && Shown(g) && forall op <- ops :: WellFormed(op) && Holds(op, g) && FieldNamed(op) != FOffset
    requires t.year == g.year && t.month == g.month && t.day == g.day && t.minute == g.minute && t.second == g.second
    requires t.nanos == g.nanos && t.hour == HourOf(g) && (g.weekday.Some? ==> t.weekday == g.weekday.value)
    requires forall op <- ops :: op.Hour24? ==> !g.havePm
    requires forall op <- ops :: op.Hour12? || op.AmPm? ==> g.have12 && g.havePm && 1 <= g.hour <= 12
    ensures TextOf(ops, t) == FieldTexts(ops, g, false)
  {
    hide OpText, FieldText, Holds, WellFormed, HourOf, FieldNamed, Shown;
    if ops != [] {
      assert ops[0] in ops;
      OpPrints(ops[0], g, t);
      OpsPrint(ops[1..], g, t);
    }
  }

  lemma {:induction false} StrictFacts(ops: seq<Op>)
    requires Strict(ops)
    ensures forall op <- ops :: FieldNamed(op) != FOffset && (op.Second? ==> op.pad == 2)
    ensures forall op <- ops :: Names(ops, FieldNamed(op))
    ensures (exists op <- ops :: op.Hour24?) ==> !Has(ops, PTwelve)
    ensures Has(ops, PTwelve) ==> exists op <- ops :: op.Hour12?
    ensures Has(ops, PTwelve) ==> Names(ops, FHour)
  {
    if ops != [] {
      StrictFacts(ops[1..]);
      assert forall o :: o in ops <==> o == ops[0] || o in ops[1..];
    }
  }

  /** A text that parses is printed back exactly, unless its seconds are written 60: for patterns whose
      numbers are padded, with no offset and no field twice, `a` present just when `h` is. */
  lemma ParseThenFormat(ops: seq<Op>, s: string)
    requires Strict(ops) && (Has(ops, PAmPm) <==> Has(ops, PTwelve)) && (forall op <- ops :: WellFormed(op))
    requires ParseOf(ops, s).Yes?
    ensures var t := ParseOf(ops, s).v;
            && 0 <= t.nanos < 1_000_000_000
            && (TextOf(ops, StampOf(t)) == s <==> SecondsText(ops, s, START) != "60")
  {
    hide OpsRead, Finish, StampOf, TextOf, FieldTexts, SecondsText, Strict, HourOf, Shown;
    var g := OpsRead(ops, s, START).v.0;
    assert Shown(START) by { StartIsShown(); }
    OpsForth(ops, s, START);
    OpsShown(ops, s, START);
    NanosStay(ops, s, START);
    FinishStamp(g);
    FinishNanos(g);
    StrictFacts(ops);
    var t := StampOf(Finish(g).v);
    assert Real(t) by { assert Shown(g); ShownMonth(g); }
    forall op <- ops | op.Hour12? || op.AmPm? ensures g.have12 && g.havePm && 1 <= g.hour <= 12 {
      if op.AmPm? { HasSome(ops, PAmPm); assert IsPart(op, PAmPm); } else { HasSome(ops, PTwelve); assert IsPart(op, PTwelve); }
      var o :| o in ops && o.Hour12?;
      assert Holds(o, g);
    }
    OpsPrint(ops, g, t);
    if SecondsText(ops, s, START) == "60" { SixtyDiffers(ops, g); }
  }

  lemma StartIsShown()
    ensures Shown(START)
  {}

  lemma ShownMonth(g: Fields)
    requires Shown(g)
    ensures 1 <= g.month <= 12
  {}

  lemma FinishNanos(g: Fields)
    requires 1 <= g.month <= 12 && Finish(g).Yes?
    ensures Finish(g).v.nanos == g.nanos
  {}

  lemma {:induction false} NanosStay(ops: seq<Op>, s: string, f: Fields)
    requires (forall op <- ops :: WellFormed(op)) && OpsRead(ops, s, f).Yes? && 0 <= f.nanos < 1_000_000_000
    ensures 0 <= OpsRead(ops, s, f).v.0.nanos < 1_000_000_000
    decreases ops
  {
    hide OpRead;
    if ops != [] {
      OpNanos(ops[0], s, f);
      var (g, rest) := OpRead(ops[0], s, f).value;
      NanosStay(ops[1..], rest, g);
    }
  }

  lemma OpNanos(op: Op, s: string, f: Fields)
    requires WellFormed(op) && OpRead(op, s, f).Some? && 0 <= f.nanos < 1_000_000_000
    ensures 0 <= OpRead(op, s, f).value.0.nanos < 1_000_000_000
  {
    hide TakeDigits, TakeNumber, TakeName, TakeOffset, StartsWith, Pow10;
    match op
    case Fraction(pad) => FractionForth(s, pad);
    case _ =>
  }
}
