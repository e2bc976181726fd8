/** The delimiting rule is exact: a pattern that breaks it loses some instant. */
module DateLimits {
  import opened Text
  import opened DateOps
  import opened DateFormat
  import opened DateRoundTrip
  import opened Options
  import Calendar

  /** Monday 7 May 2001, 01:01:01 UTC: every field is as short as it gets. */
  const SHORT := Stamp(2001, 5, 7, 1, 1, 1, 1, 0, 0)

  function ShortInstant(): Instant {
    Instant((Calendar.DayNumber(2001, 5, 7) - Calendar.UNIX_EPOCH) * DAY + 3661, 0, 0)
  }

  lemma ShortStamp()
    ensures StampOf(ShortInstant()) == SHORT && InRange(SHORT) && Real(SHORT)
  {
    hide Calendar.Civil, StampOf;
    var day := Calendar.DayNumber(2001, 5, 7);
    Calendar.CivilOfDayNumber(2001, 5, 7);
    StampBack(day, 1, 1, 1, 0, 0);
    assert Calendar.Weekday(day) == 1;
  }

  /** What an operation prints then, and the least it can read. */
  function Least(op: Op): nat {
    match op
    case Lit(text) => |text|
    case Year2 => 2
    case Year4 => 4
    case MonthNum(pad) => pad
    case MonthShort => 3
    case MonthLong => 3
    case Day(pad) => pad
    case WeekShort => 3
    case WeekLong => 6
    case Hour24(pad) => pad
    case Hour12(pad) => pad
    case Minute(pad) => pad
    case Second(pad) => pad
    case Fraction(pad) => pad
    case AmPm => 2
    case OffsetRfc => 5
    case _ => 1
  }

  function LeastAll(ops: seq<Op>): nat {
    if ops == [] then 0 else Least(ops[0]) + LeastAll(ops[1..])
  }

  lemma OneDigit(v: nat, pad: nat)
    requires 1 <= v < 10 && 1 <= pad <= 2
    ensures |Pad(v, pad)| == pad
  {
    assert Digits(v) == [('0' as int + v) as char];
  }

  lemma ShortText(op: Op)
    requires WellFormed(op)
    ensures Real(SHORT) && |OpText(op, SHORT)| == Least(op)
  {
    hide Pad, IntText, Pow10;
    Hundreds();
    match op
    case Year2 => PadIs(1, 2, 2);
    case Year4 => PadIs(2001, 4, 4);
    case MonthNum(pad) => OneDigit(5, pad);
    case Day(pad) => OneDigit(7, pad);
    case Hour24(pad) => OneDigit(1, pad);
    case Hour12(pad) => OneDigit(1, pad);
    case Minute(pad) => OneDigit(1, pad);
    case Second(pad) => OneDigit(1, pad);
    case Fraction(pad) => NanosBack(0, pad, "");
    case OffsetRfc => OffsetLength();
    case _ =>
  }

  lemma OffsetLength()
    ensures |OffsetText(OffsetRfc, 0)| == 5
  {
    hide Pad;
    Hundreds();
    OffsetTextIs(OffsetRfc, 0);
    PadIs(0, 2, 2);
  }

  lemma {:induction false} ShortTexts(ops: seq<Op>)
    requires forall op <- ops :: WellFormed(op)
    ensures Real(SHORT) && |TextOf(ops, SHORT)| == LeastAll(ops)
  {
    hide OpText, Least;
    if ops != [] {
      ShortText(ops[0]);
      ShortTexts(ops[1..]);
    }
  }

  /** What is left is a tail of the text, and at least that much was read. */
  predicate Reads(s: string, rest: string, least: nat) {
    |rest| + least <= |s| && rest == s[|s| - |rest|..]
  }

  lemma DigitsRead(s: string, min: nat, max: nat)
    requires TakeDigits(s, min, max).Some?
    ensures Reads(s, TakeDigits(s, min, max).value.1, min)
  {}

  lemma NamesRead(s: string, names: seq<string>, short: bool, i: nat, least: nat)
    requires i <= |names| && forall j | 0 <= j < |names| :: least <= |Name(names, j, short)|
    ensures TakeName(s, names, short, i).Some? ==> Reads(s, TakeName(s, names, short, i).value.1, least)
    decreases |names| - i
  {
    hide Name;
    if i < |names| { NamesRead(s, names, short, i + 1, least); }
  }

  lemma NameLengths()
    ensures forall short, j | 0 <= j < |MONTHS| :: 3 <= |Name(MONTHS, j, short)|
    ensures forall short, j | 0 <= j < |WEEKDAYS| :: |Name(WEEKDAYS, j, short)| >= if short then 3 else 6
  {
    assert forall j | 0 <= j < |MONTHS| :: MONTHS[j] in MONTHS && |MONTHS[j]| >= 3;
    assert forall j | 0 <= j < |WEEKDAYS| :: |WEEKDAYS[j]| >= 6;
  }

  lemma OffsetRead(op: Op, s: string)
    requires NamesOffset(op) && TakeOffset(op, s).Some?
    ensures Reads(s, TakeOffset(op, s).value.1, Least(op))
  {
    hide Leading, Value;
  }

  lemma OpReads(op: Op, s: string, f: Fields)
    requires WellFormed(op) && OpRead(op, s, f).Some?
    ensures Reads(s, OpRead(op, s, f).value.1, Least(op))
  {
    hide TakeDigits, TakeName, TakeOffset, Pow10, Reads;
    NameLengths();
    match op
    case Lit(text) => PrefixRead(s, text);
    case Year2 => DigitsRead(s, 2, 2);
    case Year4 => DigitsRead(s, 4, 4);
    case MonthNum(pad) => DigitsRead(s, pad, 2);
    case MonthShort => NamesRead(s, MONTHS, true, 0, 3);
    case MonthLong => NamesRead(s, MONTHS, false, 0, 3);
    case Day(pad) => DigitsRead(s, pad, 2);
    case WeekShort => NamesRead(s, WEEKDAYS, true, 0, 3);
    case WeekLong => NamesRead(s, WEEKDAYS, false, 0, 6);
    case Hour24(pad) => DigitsRead(s, pad, 2);
    case Hour12(pad) => DigitsRead(s, pad, 2);
    case Minute(pad) => DigitsRead(s, pad, 2);
    case Second(pad) => DigitsRead(s, pad, 2);
    case Fraction(pad) => DigitsRead(s, pad, pad);
    case AmPm => PrefixRead(s, if StartsWith(s, "AM") then "AM" else "PM");
    case _ => OffsetRead(op, s);
  }

  lemma PrefixRead(s: string, prefix: string)
    requires StartsWith(s, prefix)
    ensures Reads(s, s[|prefix|..], |prefix|)
  {}

  /** A text read to its end is no shorter than the least of every operation. */
  lemma {:induction false} OpsNeed(ops: seq<Op>, s: string, f: Fields)
    requires forall op <- ops :: WellFormed(op)
    ensures OpsRead(ops, s, f).Yes? && OpsRead(ops, s, f).v.1 == "" ==> |s| >= LeastAll(ops)
    decreases ops
  {
    hide OpRead, Least;
    if ops != [] && OpRead(ops[0], s, f).Some? {
      var (g, rest) := OpRead(ops[0], s, f).value;
      OpReads(ops[0], s, f);
      OpsNeed(ops[1..], rest, g);
    }
  }

  /** An unpadded number before a digit reads two. */
  lemma LooseReadsTwo(op: Op, s: string, f: Fields)
    requires WellFormed(op) && Unpadded(op) && |s| >= 2 && IsDigit(s[0]) && IsDigit(s[1])
    ensures OpRead(op, s, f).Some? ==> |OpRead(op, s, f).value.1| == |s| - 2
  {
    assert Leading(s, 2) == 2 by { assert s[1..][0] == s[1] && Leading(s[1..], 1) == 1; }
    hide Leading, Value;
  }

  lemma StartsDigit(op: Op)
    requires WellFormed(op) && CanStartDigit([op])
    ensures Real(SHORT) && OpText(op, SHORT) != [] && IsDigit(OpText(op, SHORT)[0])
  {
    hide Pad, IntText, Pow10;
    Hundreds();
    match op
    case Year2 => PadIs(1, 2, 2);
    case Year4 => PadIs(2001, 4, 4);
    case MonthNum(pad) => PadIs(5, pad, 2);
    case Day(pad) => PadIs(7, pad, 2);
    case Hour24(pad) => PadIs(1, pad, 2);
    case Hour12(pad) => PadIs(1, pad, 2);
    case Minute(pad) => PadIs(1, pad, 2);
    case Second(pad) => PadIs(1, pad, 2);
    case Fraction(pad) => FractionDigits(pad);
    case _ =>
  }

  lemma FractionDigits(pad: nat)
    requires 1 <= pad <= 9
    ensures Real(SHORT) && OpText(Fraction(pad), SHORT) != [] && IsDigit(OpText(Fraction(pad), SHORT)[0])
  {
    hide Pad, IntText, Pow10;
    NanosBack(0, pad, "");
    Billion();
    NanosText(0);
    PadIs(0, 9, 9);
  }

  /** The greedy number takes a character some later operation needs. */
  lemma {:induction false} UndelimitedRead(ops: seq<Op>, f: Fields)
    requires (forall op <- ops :: WellFormed(op)) && !Delimited(ops, 0)
    ensures Real(SHORT) && var r := OpsRead(ops, TextOf(ops, SHORT), f); !(r.Yes? && r.v.1 == "")
    decreases ops
  {
    hide OpRead, OpText, Least, Reads;
    var s, op := TextOf(ops, SHORT), ops[0];
    ShortTexts(ops);
    ShortText(op);
    if OpRead(op, s, f).Some? {
      var (g, rest) := OpRead(op, s, f).value;
      OpReads(op, s, f);
      OpsNeed(ops[1..], rest, g);
      ShortTexts(ops[1..]);
      if Loose(op, 0) && CanStartDigit(ops[1..]) {
        StartsDigit(ops[1]);
        StartsDigit(op);
        OneCharacter(op);
        assert s[0] == OpText(op, SHORT)[0] && s[1] == OpText(ops[1], SHORT)[0];
        LooseReadsTwo(op, s, f);
      } else {
        UndelimitedRead(ops[1..], g);
        TailIs(s, rest, OpText(op, SHORT), TextOf(ops[1..], SHORT), Least(op));
      }
    }
  }

  lemma OneCharacter(op: Op)
    requires Unpadded(op)
    ensures Least(op) == 1
  {}

  lemma TailIs(s: string, rest: string, first: string, tail: string, least: nat)
    requires s == first + tail && Reads(s, rest, least) && |first| == least
    ensures |rest| < |tail| || rest == tail
  {}

  // ----- exactly the delimited patterns -----

  /** The instants a pattern's years can show. */
  predicate Showable(ops: seq<Op>, t: Instant) {
    && 0 <= t.nanos < 1_000_000_000 && 0 <= StampOf(t).year <= 9999
    && ((exists op <- ops :: op.Year2?) ==> 2000 <= StampOf(t).year < 2100)
  }

  predicate RoundTrips(ops: seq<Op>, t: Instant)
    requires (forall op <- ops :: WellFormed(op)) && 0 <= t.nanos < 1_000_000_000
  {
    var r := ParseOf(ops, TextOf(ops, StampOf(t)));
    r.Yes? && StampOf(r.v) == Zeroed(ops, StampOf(t))
  }

  lemma UndelimitedFails(ops: seq<Op>)
    requires (forall op <- ops :: WellFormed(op)) && !Delimited(ops, 0)
    ensures Showable(ops, ShortInstant()) && ParseOf(ops, TextOf(ops, StampOf(ShortInstant()))).No?
  {
    hide OpsRead, TextOf, Delimited, Finish, StampOf;
    ShortStamp();
    UndelimitedRead(ops, START);
  }

  /** Every UTC instant survives printing and parsing if and only if no unpadded number is followed by what can
      start with a digit. */
  lemma DelimitedIffRoundTrips(ops: seq<Op>)
    requires (forall op <- ops :: WellFormed(op)) && Unparseable(ops).None?
    ensures Delimited(ops, 0) <==> forall t: Instant | t.offset == 0 && Showable(ops, t) :: RoundTrips(ops, t)
  {
    hide TextOf, StampOf, ParseOf, Delimited, Unparseable, Zeroed;
    if Delimited(ops, 0) {
      forall t: Instant | t.offset == 0 && Showable(ops, t) ensures RoundTrips(ops, t) {
        FormatThenParse(ops, t);
      }
    } else {
      UndelimitedFails(ops);
      assert !RoundTrips(ops, ShortInstant());
    }
  }

  // ----- an hour-only offset -----

  /** The text starts with two digits. */
  predicate TwoDigitsFirst(s: string) {
    |s| >= 2 && IsDigit(s[0]) && IsDigit(s[1])
  }

  lemma TwoTaken(s: string)
    ensures TakeDigits(s, 2, 2).Some? <==> TwoDigitsFirst(s)
    ensures TwoDigitsFirst(s) ==> TakeDigits(s, 2, 2).value.1 == s[2..]
  {
    assert Leading(s, 2) == 2 <==> TwoDigitsFirst(s) by {
      if s != [] && IsDigit(s[0]) { assert Leading(s[1..], 1) == 1 <==> s[1..] != [] && IsDigit(s[1..][0]); }
    }
  }

  /** A whole-hour offset printed without minutes is read back exactly when no two digits follow: two digits are
      taken for its minutes. */
  lemma HourOffsetIff(offset: int, rest: string)
    requires offset != 0 && offset % 3600 == 0 && -360_000 < offset < 360_000
    ensures TakeOffset(OffsetHour, OffsetText(OffsetHour, offset) + rest) == Some((offset, rest)) <==> !TwoDigitsFirst(rest)
  {
    hide TakeDigits, Pad, HoursIn, MinutesIn;
    var size := if offset < 0 then -offset else offset;
    var h, sign := HoursIn(size), if offset < 0 then '-' else '+';
    WholeHours(size);
    OffsetTextIs(OffsetHour, offset);
    var s := OffsetText(OffsetHour, offset) + rest;
    assert s[0] == sign && s[1..] == Pad(h, 2) + rest && !StartsWith(s, "Z");
    TwoDigits(h, rest);
    TwoTaken(rest);
    assert TwoDigitsFirst(rest) ==> rest[2..] != rest;
  }

  lemma WholeHours(size: nat)
    requires size % 3600 == 0 && size < 360_000
    ensures MinutesIn(size) == 0 && HoursIn(size) < 100 && size == HoursIn(size) * 3600
  {
  }
}
