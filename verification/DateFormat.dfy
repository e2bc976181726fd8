/** The printer and the parser that walk one list of operations. */
module DateFormat {
  import opened Text
  import opened DateOps
  import Calendar
  import opened Options

  // ----- instants -----

  /** Seconds since the Unix epoch, nanoseconds within the second, and the zone's offset east of UTC. */
  datatype Instant = Instant(secs: int, nanos: int, offset: int)

  /** An instant's calendar and clock fields in its own zone. */
  datatype Stamp = Stamp(year: int, month: int, day: int, weekday: int, hour: int, minute: int, second: int, nanos: int,
                         offset: int)

  const DAY := 86400

  function DayOf(t: Instant): int {
    (t.secs + t.offset) / DAY + Calendar.UNIX_EPOCH
  }

  function StampOf(t: Instant): Stamp {
    var clock := (t.secs + t.offset) % DAY;
    var date := Calendar.Civil(DayOf(t));
    Stamp(date.year, date.month, date.day, Calendar.Weekday(DayOf(t)), clock / 3600, clock / 60 % 60, clock % 60, t.nanos, t.offset)
  }

  const MONTHS: seq<string> := [
    "January", "February", "March", "April", "May", "June", "July", "August", "September", "October", "November", "December"
  ]

  const WEEKDAYS: seq<string> := ["Sunday", "Monday", "Tuesday", "Wednesday", "Thursday", "Friday", "Saturday"]

  // ----- printing -----

  function Digits(v: nat): string {
    if v < 10 then [('0' as int + v) as char] else Digits(v / 10) + [('0' as int + v % 10) as char]
  }

  function IntText(v: int): string {
    if v < 0 then "-" + Digits(-v) else Digits(v)
  }

  function Zeros(n: int): (z: string)
    ensures |z| == if n <= 0 then 0 else n
  {
    if n <= 0 then "" else "0" + Zeros(n - 1)
  }

  /** v zero-padded to the width; a minus sign counts as one place. */
  function Pad(v: int, width: nat): string {
    Zeros(width - |IntText(v)|) + IntText(v)
  }

  /** Go's remainder: it takes the sign of the dividend. */
  function Rem(a: int, b: int): int
    requires b > 0
  {
    if a < 0 then -(-a % b) else a % b
  }

  function Name(names: seq<string>, i: int, short: bool): string
    requires 0 <= i < |names|
  {
    if short && |names[i]| >= 3 then names[i][..3] else names[i]
  }

  function HoursIn(size: nat): nat {
    size / 3600
  }

  /** The minutes past the hour. */
  function MinutesIn(size: nat): nat {
    size % 3600 / 60
  }

  function OffsetText(op: Op, offset: int): string {
    if offset == 0 && !op.OffsetRfc? then "Z"
    else
      var size := if offset < 0 then -offset else offset;
      var h, m := HoursIn(size), MinutesIn(size);
      var head := [if offset < 0 then '-' else '+'] + Pad(h, 2);
      if op.OffsetHour? && m == 0 then head
      else if op.OffsetColon? then head + ":" + Pad(m, 2)
      else head + Pad(m, 2)
  }

  function Hour12Of(hour: int): int {
    if hour % 12 == 0 then 12 else hour % 12
  }

  predicate Real(t: Stamp) {
    1 <= t.month <= 12 && 0 <= t.weekday < 7 && 0 <= t.nanos < 1_000_000_000
  }

  function OpText(op: Op, t: Stamp): string
    requires Real(t)
  {
    match op
    case Lit(text) => text
    case Year2 => Pad(Rem(t.year, 100), 2)
    case Year4 => Pad(t.year, 4)
    case MonthNum(pad) => Pad(t.month, pad)
    case MonthShort => Name(MONTHS, t.month - 1, true)
    case MonthLong => Name(MONTHS, t.month - 1, false)
    case Day(pad) => Pad(t.day, pad)
    case WeekShort => Name(WEEKDAYS, t.weekday, true)
    case WeekLong => Name(WEEKDAYS, t.weekday, false)
    case Hour24(pad) => Pad(t.hour, pad)
    case Hour12(pad) => Pad(Hour12Of(t.hour), pad)
    case Minute(pad) => Pad(t.minute, pad)
    case Second(pad) => Pad(t.second, pad)
    case Fraction(pad) =>
      var f := IntText(t.nanos + 1_000_000_000)[1..];
      if pad <= |f| then f[..pad] else f
    case AmPm => if t.hour < 12 then "AM" else "PM"
    case _ => OffsetText(op, t.offset)
  }

  function TextOf(ops: seq<Op>, t: Stamp): string
    requires Real(t)
  {
    if ops == [] then "" else OpText(ops[0], t) + TextOf(ops[1..], t)
  }

  lemma {:induction false} TextOfAppend(ops: seq<Op>, op: Op, t: Stamp)
    requires Real(t)
    ensures TextOf(ops + [op], t) == TextOf(ops, t) + OpText(op, t)
  {
    hide OpText;
    if ops == [] {
      assert ops + [op] == [op] && [op][1..] == [];
      assert OpText(op, t) + "" == OpText(op, t) == "" + OpText(op, t);
    } else {
      TextOfAppend(ops[1..], op, t);
      assert (ops + [op])[1..] == ops[1..] + [op] && (ops + [op])[0] == ops[0];
      var a, b, c := OpText(ops[0], t), TextOf(ops[1..], t), OpText(op, t);
      assert a + (b + c) == a + b + c;
    }
  }

  /** The printer as it runs: one buffer appended to. */
  method Format(ops: seq<Op>, t: Instant) returns (text: string)
    requires 0 <= t.nanos < 1_000_000_000
    ensures text == TextOf(ops, StampOf(t))
  {
    hide OpText;
    var stamp := StampOf(t);
    var buf := "";
    var i := 0;
    while i < |ops|
      invariant i <= |ops| && buf == TextOf(ops[..i], stamp)
    {
      TextOfAppend(ops[..i], ops[i], stamp);
      assert ops[..i] + [ops[i]] == ops[..i + 1];
      buf := buf + OpText(ops[i], stamp);
      i := i + 1;
    }
    assert ops[..i] == ops;
    text := buf;
  }

  // ----- parsing -----

  datatype Fields = Fields(year: int, month: int, day: int, hour: int, minute: int, second: int, nanos: int, offset: int,
                           havePm: bool, pm: bool, have12: bool, weekday: Option<int>)

  datatype Refusal = NoYear | NoMonth | NoDay | NoMeridiem | Expected(op: Op, rest: string) | Trailing(rest: string)
                   | WrongWeekday | NotADate

  datatype Parsed<T> = Yes(v: T) | No(why: Refusal)

  predicate NamesYear(op: Op) {
    op.Year2? || op.Year4?
  }

  predicate NamesMonth(op: Op) {
    op.MonthNum? || op.MonthShort? || op.MonthLong?
  }

  /** Why a pattern cannot name a whole instant. */
  function Unparseable(ops: seq<Op>): Option<Refusal> {
    if !exists op <- ops :: NamesYear(op) then Some(NoYear)
    else if !exists op <- ops :: NamesMonth(op) then Some(NoMonth)
    else if !exists op <- ops :: op.Day? then Some(NoDay)
    else if (exists op <- ops :: op.Hour12?) && !exists op <- ops :: op.AmPm? then Some(NoMeridiem)
    else None
  }

  /** The number of leading digits, at most max. */
  function Leading(s: string, max: nat): (n: nat)
    ensures n <= max && n <= |s| && AllDigits(s[..n]) && (n < max && n < |s| ==> !IsDigit(s[n]))
  {
    if max == 0 || s == [] || !IsDigit(s[0]) then 0
    else
      assert s[..1 + Leading(s[1..], max - 1)] == [s[0]] + s[1..][..Leading(s[1..], max - 1)];
      1 + Leading(s[1..], max - 1)
  }

  /** Between min and max digits; a count of at most nine digits always fits. */
  function TakeDigits(s: string, min: nat, max: nat): Option<(nat, string)> {
    var n := Leading(s, max);
    if n < min || n == 0 then None else Some((Value(s[..n]), s[n..]))
  }

  predicate StartsWith(s: string, prefix: string) {
    |prefix| <= |s| && s[..|prefix|] == prefix
  }

  /** The first of the names from i on that the text starts with. */
  function TakeName(s: string, names: seq<string>, short: bool, i: nat): Option<(nat, string)>
    requires i <= |names|
    decreases |names| - i
  {
    if i == |names| then None
    else if StartsWith(s, Name(names, i, short)) then Some((i, s[|Name(names, i, short)|..]))
    else TakeName(s, names, short, i + 1)
  }

  function TakeOffset(op: Op, s: string): Option<(int, string)> {
    if !op.OffsetRfc? && StartsWith(s, "Z") then Some((0, s[1..]))
    else if s == [] || (s[0] != '+' && s[0] != '-') then None
    else
      var sign := if s[0] == '-' then -1 else 1;
      match TakeDigits(s[1..], 2, 2)
      case None => None
      case Some((h, rest)) =>
        if op.OffsetColon? then
          if !StartsWith(rest, ":") then None
          else match TakeDigits(rest[1..], 2, 2)
            case None => None
            case Some((m, rest1)) => Some((sign * (h * 3600 + m * 60), rest1))
        else match TakeDigits(rest, 2, 2)
          case Some((m, rest1)) => Some((sign * (h * 3600 + m * 60), rest1))
          case None => if op.OffsetHour? then Some((sign * (h * 3600), rest)) else None
  }

  function Pow10(n: nat): (p: nat)
    ensures p >= 1
  {
    if n == 0 then 1 else 10 * Pow10(n - 1)
  }

  /** A number of one or two digits within bounds. */
  function TakeNumber(s: string, pad: nat, lo: int, hi: int): Option<(int, string)> {
    match TakeDigits(s, pad, 2)
    case None => None
    case Some((v, rest)) => if lo <= v <= hi then Some((v, rest)) else None
  }

  /** One operation read from the head of the text. */
  function OpRead(op: Op, s: string, f: Fields): Option<(Fields, string)>
    requires WellFormed(op)
  {
    match op
    case Lit(text) => if StartsWith(s, text) then Some((f, s[|text|..])) else None
    case Year2 =>
      (match TakeDigits(s, 2, 2)
       case Some((v, rest)) => Some((f.(year := 2000 + v), rest))
       case None => None)
    case Year4 =>
      (match TakeDigits(s, 4, 4)
       case Some((v, rest)) => Some((f.(year := v), rest))
       case None => None)
    case MonthNum(pad) =>
      (match TakeNumber(s, pad, 1, 12)
       case Some((v, rest)) => Some((f.(month := v), rest))
       case None => None)
    case MonthShort =>
      (match TakeName(s, MONTHS, true, 0)
       case Some((v, rest)) => Some((f.(month := v + 1), rest))
       case None => None)
    case MonthLong =>
      (match TakeName(s, MONTHS, false, 0)
       case Some((v, rest)) => Some((f.(month := v + 1), rest))
       case None => None)
    case Day(pad) =>
      (match TakeNumber(s, pad, 1, 31)
       case Some((v, rest)) => Some((f.(day := v), rest))
       case None => None)
    case WeekShort =>
      (match TakeName(s, WEEKDAYS, true, 0)
       case Some((v, rest)) => Some((f.(weekday := Some(v)), rest))
       case None => None)
    case WeekLong =>
      (match TakeName(s, WEEKDAYS, false, 0)
       case Some((v, rest)) => Some((f.(weekday := Some(v)), rest))
       case None => None)
    case Hour24(pad) =>
      (match TakeNumber(s, pad, 0, 23)
       case Some((v, rest)) => Some((f.(hour := v), rest))
       case None => None)
    case Hour12(pad) =>
      (match TakeNumber(s, pad, 1, 12)
       case Some((v, rest)) => Some((f.(hour := v, have12 := true), rest))
       case None => None)
    case Minute(pad) =>
      (match TakeNumber(s, pad, 0, 59)
       case Some((v, rest)) => Some((f.(minute := v), rest))
       case None => None)
    case Second(pad) =>
      (match TakeNumber(s, pad, 0, 60)
       case Some((v, rest)) => Some((f.(second := if v == 60 then 59 else v), rest))
       case None => None)
    case Fraction(pad) =>
      (match TakeDigits(s, pad, pad)
       case Some((v, rest)) => Some((f.(nanos := v * Pow10(9 - pad)), rest))
       case None => None)
    case AmPm =>
      if StartsWith(s, "AM") then Some((f.(pm := false, havePm := true), s[2..]))
      else if StartsWith(s, "PM") then Some((f.(pm := true, havePm := true), s[2..]))
      else None
    case _ =>
      match TakeOffset(op, s)
      case Some((v, rest)) => Some((f.(offset := v), rest))
      case None => None
  }

  /** Where the text stands when the operation is refused: past the digits of a number that is out of bounds, else
      where it stood. */
  function StuckAt(op: Op, s: string): string
    requires WellFormed(op)
  {
    match op
    case MonthNum(pad) => PastDigits(s, pad)
    case Day(pad) => PastDigits(s, pad)
    case Hour24(pad) => PastDigits(s, pad)
    case Hour12(pad) => PastDigits(s, pad)
    case Minute(pad) => PastDigits(s, pad)
    case Second(pad) => PastDigits(s, pad)
    case _ => s
  }

  function PastDigits(s: string, pad: nat): string {
    match TakeDigits(s, pad, 2)
    case None => s
    case Some((_, rest)) => rest
  }

  function OpsRead(ops: seq<Op>, s: string, f: Fields): Parsed<(Fields, string)>
    requires forall op <- ops :: WellFormed(op)
    decreases ops
  {
    if ops == [] then Yes((f, s))
    else match OpRead(ops[0], s, f)
      case None => No(Expected(ops[0], StuckAt(ops[0], s)))
      case Some((g, rest)) => OpsRead(ops[1..], rest, g)
  }

  const START := Fields(0, 1, 1, 0, 0, 0, 0, 0, false, false, false, None)

  /** The hour once the meridiem is known. */
  function HourOf(f: Fields): int {
    if f.have12 && f.havePm then f.hour % 12 + (if f.pm then 12 else 0) else f.hour
  }

  /** The day number of the fields, days past the end of the month running into the next. */
  function FieldsDay(f: Fields): int
    requires 1 <= f.month <= 12
  {
    Calendar.DayNumber(f.year, f.month, f.day)
  }

  function InstantOf(f: Fields): Instant
    requires 1 <= f.month <= 12
  {
    Instant((FieldsDay(f) - Calendar.UNIX_EPOCH) * DAY + HourOf(f) * 3600 + f.minute * 60 + f.second - f.offset, f.nanos, f.offset)
  }

  function Finish(f: Fields): Parsed<Instant>
    requires 1 <= f.month <= 12
  {
    var t := InstantOf(f);
    var stamp := StampOf(t);
    if f.weekday.Some? && stamp.weekday != f.weekday.value then No(WrongWeekday)
    else if stamp.day != f.day || stamp.month != f.month then No(NotADate)
    else Yes(t)
  }

  lemma MonthStaysReal(op: Op, s: string, f: Fields)
    requires WellFormed(op) && 1 <= f.month <= 12
    ensures OpRead(op, s, f).Some? ==> 1 <= OpRead(op, s, f).value.0.month <= 12
  {
    hide TakeDigits, TakeOffset, TakeName, StartsWith;
    NameIndex(s, MONTHS, true, 0);
    NameIndex(s, MONTHS, false, 0);
  }

  lemma NameIndex(s: string, names: seq<string>, short: bool, i: nat)
    requires i <= |names|
    ensures TakeName(s, names, short, i).Some? ==> i <= TakeName(s, names, short, i).value.0 < |names|
    decreases |names| - i
  {
    if i < |names| { NameIndex(s, names, short, i + 1); }
  }

  lemma {:induction false} MonthsStayReal(ops: seq<Op>, s: string, f: Fields)
    requires (forall op <- ops :: WellFormed(op)) && 1 <= f.month <= 12
    ensures OpsRead(ops, s, f).Yes? ==> 1 <= OpsRead(ops, s, f).v.0.month <= 12
    decreases ops
  {
    hide OpRead;
    if ops != [] && OpRead(ops[0], s, f).Some? {
      MonthStaysReal(ops[0], s, f);
      var (g, rest) := OpRead(ops[0], s, f).value;
      MonthsStayReal(ops[1..], rest, g);
    }
  }

  function ParseOf(ops: seq<Op>, s: string): Parsed<Instant>
    requires forall op <- ops :: WellFormed(op)
  {
    if Unparseable(ops).Some? then No(Unparseable(ops).value)
    else match OpsRead(ops, s, START)
      case No(why) => No(why)
      case Yes((f, rest)) =>
        if rest != "" then No(Trailing(rest)) else MonthsStayReal(ops, s, START); Finish(f)
  }

  /** The parser as it runs: the rest of the text and the fields updated operation by operation. */
  method Parse(ops: seq<Op>, s: string) returns (r: Parsed<Instant>)
    requires forall op <- ops :: WellFormed(op)
    ensures r == ParseOf(ops, s)
  {
    hide OpRead, Finish;
    if Unparseable(ops).Some? { return No(Unparseable(ops).value); }
    var f, rest := START, s;
    var i := 0;
    assert ops[0..] == ops;
    while i < |ops|
      invariant i <= |ops| && 1 <= f.month <= 12
      invariant OpsRead(ops, s, START) == OpsRead(ops[i..], rest, f)
    {
      assert ops[i..][1..] == ops[i + 1..];
      var read := OpRead(ops[i], rest, f);
      if read.None? { return No(Expected(ops[i], StuckAt(ops[i], rest))); }
      MonthStaysReal(ops[i], rest, f);
      f, rest := read.value.0, read.value.1;
      i := i + 1;
    }
    if rest != "" { return No(Trailing(rest)); }
    r := Finish(f);
  }
}
