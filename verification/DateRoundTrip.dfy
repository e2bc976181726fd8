/** Printing then parsing gives back the instant, without the fields the pattern does not name. */
module DateRoundTrip {
  import opened Text
  import opened DateOps
  import opened DateFormat
  import Calendar
  import opened Options

  // ----- digits -----

  lemma {:induction false} ValueZero(s: string)
    requires AllDigits(s)
    ensures AllDigits("0" + s) && Value("0" + s) == Value(s)
  {
    if s == [] {
      assert "0" + s == "0" && "0"[..0] == [];
    } else {
      assert AllDigits(s[..|s| - 1]);
      ValueZero(s[..|s| - 1]);
      assert ("0" + s)[..|s|] == "0" + s[..|s| - 1];
    }
  }

  lemma {:induction false} ValueZeros(n: nat, s: string)
    requires AllDigits(s)
    ensures AllDigits(Zeros(n) + s) && Value(Zeros(n) + s) == Value(s)
  {
    if n == 0 {
      assert "" + s == s;
    } else {
      ValueZeros(n - 1, s);
      ValueZero(Zeros(n - 1) + s);
      assert Zeros(n) + s == "0" + (Zeros(n - 1) + s);
    }
  }

  lemma {:induction false} DigitsValue(v: nat)
    ensures Digits(v) != [] && AllDigits(Digits(v)) && Value(Digits(v)) == v
  {
    var last := [('0' as int + v % 10) as char];
    if v < 10 {
      assert Digits(v)[..0] == [];
    } else {
      DigitsValue(v / 10);
      assert Digits(v)[..|Digits(v)| - 1] == Digits(v / 10);
    }
  }

  lemma {:induction false} DigitsLength(v: nat, k: nat)
    requires k >= 1 && v < Pow10(k)
    ensures |Digits(v)| <= k
  {
    if v >= 10 {
      DigitsLength(v / 10, k - 1);
    }
  }

  lemma {:induction false} DigitsAtLeast(v: nat, k: nat)
    requires v >= Pow10(k)
    ensures |Digits(v)| >= k + 1
  {
    if k > 0 {
      DigitsAtLeast(v / 10, k - 1);
    }
  }

  /** A digit string of given length is determined by its value. */
  lemma {:induction false} ValueInjective(a: string, b: string)
    requires AllDigits(a) && AllDigits(b) && |a| == |b| && Value(a) == Value(b)
    ensures a == b
  {
    if a != [] {
      var n := |a| - 1;
      assert IsDigit(a[n]) && IsDigit(b[n]);
      assert AllDigits(a[..n]) && AllDigits(b[..n]);
      ValueInjective(a[..n], b[..n]);
      assert a == a[..n] + [a[n]] && b == b[..n] + [b[n]];
    }
  }

  lemma {:induction false} ValueBelow(s: string)
    requires AllDigits(s)
    ensures Value(s) < Pow10(|s|)
  {
    if s != [] {
      assert IsDigit(s[|s| - 1]) && AllDigits(s[..|s| - 1]);
      ValueBelow(s[..|s| - 1]);
    }
  }

  /** Cutting the last digits off divides. */
  lemma {:induction false} ValuePrefix(s: string, k: nat)
    requires AllDigits(s) && k <= |s|
    ensures AllDigits(s[..k]) && Value(s[..k]) == Value(s) / Pow10(|s| - k)
    decreases |s|
  {
    if k == |s| {
      assert s[..k] == s;
    } else {
      var t := s[..|s| - 1];
      assert IsDigit(s[|s| - 1]) && AllDigits(t);
      ValuePrefix(t, k);
      assert t[..k] == s[..k];
      var p := Pow10(|t| - k);
      DivTen(Value(t), Value(s) - 10 * Value(t), p);
    }
  }

  lemma DivTen(v: nat, d: nat, p: nat)
    requires d < 10 && p >= 1
    ensures (10 * v + d) / (10 * p) == v / p
  {
    var q, r := v / p, v % p;
    assert v == p * q + r;
    assert 10 * v + d == (10 * p) * q + (10 * r + d);
    assert 0 <= 10 * r + d < 10 * p;
    DivUnique(10 * v + d, 10 * p, q, 10 * r + d);
  }

  lemma DivUnique(a: nat, b: nat, q: nat, r: nat)
    requires b > 0 && a == b * q + r && r < b
    ensures a / b == q
  {
    var d := a / b - q;
    assert b * d == b * (a / b) - b * q == r - a % b;
    Scales(b, d);
  }

  lemma Scales(b: int, d: int)
    requires b > 0
    ensures d >= 1 ==> b * d >= b
    ensures d <= -1 ==> b * d <= -b
  {}

  /** A padded number: its digits, its value and how many there are. */
  lemma PadIs(v: nat, width: nat, k: nat)
    requires 1 <= width <= k && v < Pow10(k)
    ensures AllDigits(Pad(v, width)) && Value(Pad(v, width)) == v && width <= |Pad(v, width)| <= k
  {
    DigitsValue(v);
    DigitsLength(v, k);
    var n := if width > |Digits(v)| then width - |Digits(v)| else 0;
    assert Zeros(width - |IntText(v)|) == Zeros(n);
    ValueZeros(n, Digits(v));
  }

  lemma Leads(s: string, rest: string, max: nat)
    requires AllDigits(s) && |s| <= max && (|s| == max || rest == [] || !IsDigit(rest[0]))
    ensures Leading(s + rest, max) == |s| && (s + rest)[..|s|] == s && (s + rest)[|s|..] == rest
  {
    if s == [] {
      assert s + rest == rest;
    } else {
      assert IsDigit(s[0]);
      assert (s + rest)[1..] == s[1..] + rest;
      Leads(s[1..], rest, max - 1);
    }
  }

  lemma TakesDigits(s: string, rest: string, min: nat, max: nat)
    requires AllDigits(s) && 1 <= min <= |s| <= max && (|s| == max || rest == [] || !IsDigit(rest[0]))
    ensures TakeDigits(s + rest, min, max) == Some((Value(s), rest))
  {
    Leads(s, rest, max);
  }

  // ----- one operation -----

  /** The text of a number of one or two digits is read back. */
  lemma NumberBack(v: nat, pad: nat, rest: string, lo: int, hi: int)
    requires 1 <= pad <= 2 && lo <= v <= hi <= 99 && (pad == 2 || rest == [] || !IsDigit(rest[0]))
    ensures TakeNumber(Pad(v, pad) + rest, pad, lo, hi) == Some((v, rest))
  {
    assert Pow10(2) == 100 by { assert Pow10(1) == 10; }
    PadIs(v, pad, 2);
    TakesDigits(Pad(v, pad), rest, pad, 2);
  }

  predicate Unpadded(op: Op) {
    (op.MonthNum? || op.Day? || op.Hour24? || op.Hour12? || op.Minute? || op.Second?) && op.pad == 1
  }

  predicate NamesOffset(op: Op) {
    op.OffsetColon? || op.OffsetBasic? || op.OffsetHour? || op.OffsetRfc?
  }

  /** What an offset field can print in full: whole minutes, below a hundred hours. */
  predicate Printable(offset: int) {
    offset % 60 == 0 && -360_000 < offset < 360_000
  }

  /** What must not be followed by a digit: an unpadded number, and an hour offset that may go on with
      minutes. */
  predicate Loose(op: Op, offset: int) {
    Unpadded(op) || (op.OffsetHour? && offset != 0)
  }

  /** Fields a clock and calendar can show. */
  predicate InRange(t: Stamp) {
    && 0 <= t.year <= 9999 && 1 <= t.month <= 12 && 1 <= t.day <= 31 && 0 <= t.weekday < 7
    && 0 <= t.hour < 24 && 0 <= t.minute < 60 && 0 <= t.second < 60 && 0 <= t.nanos < 1_000_000_000
  }

  function Truncated(nanos: int, pad: nat): int
    requires pad <= 9
  {
    nanos / Pow10(9 - pad) * Pow10(9 - pad)
  }

  /** What reading op's own text does to the fields. */
  function Reread(op: Op, t: Stamp, f: Fields): Fields
    requires WellFormed(op)
  {
    match op
    case Lit(_) => f
    case Year2 => f.(year := t.year)
    case Year4 => f.(year := t.year)
    case MonthNum(_) => f.(month := t.month)
    case MonthShort => f.(month := t.month)
    case MonthLong => f.(month := t.month)
    case Day(_) => f.(day := t.day)
    case WeekShort => f.(weekday := Some(t.weekday))
    case WeekLong => f.(weekday := Some(t.weekday))
    case Hour24(_) => f.(hour := t.hour)
    case Hour12(_) => f.(hour := Hour12Of(t.hour), have12 := true)
    case Minute(_) => f.(minute := t.minute)
    case Second(_) => f.(second := t.second)
    case Fraction(pad) => f.(nanos := Truncated(t.nanos, pad))
    case AmPm => f.(pm := t.hour >= 12, havePm := true)
    case _ => f.(offset := t.offset)
  }

  lemma Prefixed(a: string, b: string)
    ensures StartsWith(a + b, a) && (a + b)[|a|..] == b
  {
    assert (a + b)[..|a|] == a;
  }

  /** Names told apart by their first three letters. */
  predicate ToldApart(names: seq<string>) {
    && (forall i | 0 <= i < |names| :: |names[i]| >= 3)
    && (forall i, k | 0 <= k < i < |names| :: names[i][..3] != names[k][..3])
  }

  lemma OtherName(a: string, b: string, rest: string)
    requires |a| >= 3 && |b| >= 3 && a[..3] != b[..3]
    ensures !StartsWith(a + rest, b)
  {
    var s := a + rest;
    assert s[..3] == a[..3];
    assert |b| <= |s| ==> s[..|b|][..3] == s[..3];
  }

  lemma {:induction false} NameBack(names: seq<string>, i: nat, short: bool, rest: string, k: nat)
    requires ToldApart(names) && k <= i < |names|
    ensures TakeName(Name(names, i, short) + rest, names, short, k) == Some((i, rest))
    decreases i - k
  {
    var a, b := Name(names, i, short), Name(names, k, short);
    if k == i {
      Prefixed(a, rest);
    } else {
      NameBack(names, i, short, rest, k + 1);
      assert a[..3] == names[i][..3] && b[..3] == names[k][..3];
      OtherName(a, b, rest);
    }
  }

  function ThreeLetters(s: string): int
    requires |s| >= 3
  {
    65536 * s[0] as int + 256 * s[1] as int + s[2] as int
  }

  lemma MonthsToldApart()
    ensures ToldApart(MONTHS) && ToldApart(WEEKDAYS)
  {
    forall i, k | 0 <= k < i < |MONTHS| ensures MONTHS[i][..3] != MONTHS[k][..3] {
      assert ThreeLetters(MONTHS[i][..3]) != ThreeLetters(MONTHS[k][..3]);
    }
    forall i, k | 0 <= k < i < |WEEKDAYS| ensures WEEKDAYS[i][..3] != WEEKDAYS[k][..3] {
      assert ThreeLetters(WEEKDAYS[i][..3]) != ThreeLetters(WEEKDAYS[k][..3]);
    }
  }

  lemma NanosBack(nanos: nat, pad: nat, rest: string)
    requires nanos < 1_000_000_000 && 1 <= pad <= 9
    ensures var f := IntText(nanos + 1_000_000_000)[1..];
            pad <= |f| && TakeDigits(f[..pad] + rest, pad, pad) == Some((nanos / Pow10(9 - pad), rest))
  {
    NanosText(nanos);
    var f := Pad(nanos, 9);
    Billion();
    PadIs(nanos, 9, 9);
    ValuePrefix(f, pad);
    TakesDigits(f[..pad], rest, pad, pad);
  }

  lemma Billion()
    ensures Pow10(9) == 1_000_000_000
  {
    assert Pow10(3) == 1000 by { assert Pow10(2) == 100 && Pow10(1) == 10; }
    assert Pow10(6) == 1_000_000 by { assert Pow10(5) == 100_000 && Pow10(4) == 10_000; }
    assert Pow10(8) == 100_000_000 && Pow10(7) == 10_000_000;
  }

  /** Adding the guard digit and dropping it is padding to nine places. */
  lemma NanosText(nanos: nat)
    requires nanos < 1_000_000_000
    ensures IntText(nanos + 1_000_000_000)[1..] == Pad(nanos, 9)
  {
    Billion();
    var v := nanos + 1_000_000_000;
    var d := Digits(v);
    DigitsValue(v);
    assert v < Pow10(10);
    DigitsLength(v, 10);
    DigitsAtLeast(v, 9);
    PadIs(nanos, 9, 9);
    ValuePrefix(d, 1);
    assert AllDigits(d[1..]);
    ValueTail(d);
    ValueInjective(d[1..], Pad(nanos, 9));
  }

  /** The first digit counts for its power of ten. */
  lemma {:induction false} ValueTail(s: string)
    requires s != [] && AllDigits(s)
    ensures AllDigits(s[1..]) && IsDigit(s[0])
    ensures Value(s) == (s[0] as int - '0' as int) * Pow10(|s| - 1) + Value(s[1..])
  {
    var n := |s| - 1;
    assert IsDigit(s[0]) && IsDigit(s[n]);
    if n == 0 {
      assert s[..0] == [];
    } else {
      var t := s[..n];
      assert AllDigits(t);
      ValueTail(t);
      assert t[1..] == s[1..][..n - 1] && s[1..][n - 1] == s[n];
      assert AllDigits(s[1..]);
      var d, p, last := s[0] as int - '0' as int, Pow10(n - 1), s[n] as int - '0' as int;
      assert Pow10(n) == 10 * p;
      assert Value(s) == 10 * Value(t) + last && Value(s[1..]) == 10 * Value(t[1..]) + last by { hide Pow10; }
      hide Value, Pow10, AllDigits;
      TenTimes(d, p);
    }
  }

  lemma TenTimes(d: int, p: int)
    ensures 10 * (d * p) == d * (10 * p)
  {}

  /** What may follow an unpadded number. */
  predicate NotDigit(rest: string) {
    rest == [] || !IsDigit(rest[0])
  }

  /** An operation reads its own text back. */
  lemma OpBack(op: Op, t: Stamp, rest: string, f: Fields)
    requires WellFormed(op) && InRange(t) && (op.Year2? ==> 2000 <= t.year < 2100)
    requires NamesOffset(op) ==> Printable(t.offset)
    requires Loose(op, t.offset) ==> NotDigit(rest)
    ensures OpRead(op, OpText(op, t) + rest, f) == Some((Reread(op, t, f), rest))
  {
    hide TakeDigits, TakeNumber, TakeName, TakeOffset, OffsetText, Pad, Name, IntText, Pow10, Real, ToldApart, Printable;
    MonthsToldApart();
    Hundreds();
    match op
    case Lit(text) => Prefixed(text, rest);
    case Year2 => YearBack(t.year % 100, rest, 2);
    case Year4 => YearBack(t.year, rest, 4);
    case MonthNum(pad) => NumberBack(t.month, pad, rest, 1, 12);
    case MonthShort => NameBack(MONTHS, t.month - 1, true, rest, 0);
    case MonthLong => NameBack(MONTHS, t.month - 1, false, rest, 0);
    case Day(pad) => NumberBack(t.day, pad, rest, 1, 31);
    case WeekShort => NameBack(WEEKDAYS, t.weekday, true, rest, 0);
    case WeekLong => NameBack(WEEKDAYS, t.weekday, false, rest, 0);
    case Hour24(pad) => NumberBack(t.hour, pad, rest, 0, 23);
    case Hour12(pad) => NumberBack(Hour12Of(t.hour), pad, rest, 1, 12);
    case Minute(pad) => NumberBack(t.minute, pad, rest, 0, 59);
    case Second(pad) => NumberBack(t.second, pad, rest, 0, 60);
    case Fraction(pad) => NanosBack(t.nanos, pad, rest);
    case AmPm =>
      var a := if t.hour < 12 then "AM" else "PM";
      Prefixed(a, rest);
      assert (a + rest)[..2] == a && a[0] == (a + rest)[0];
    case _ => OffsetBack(op, t.offset, rest);
  }

  lemma Hundreds()
    ensures Pow10(2) == 100 && Pow10(4) == 10_000
  {
    assert Pow10(1) == 10 && Pow10(3) == 1000;
  }

  lemma YearBack(v: nat, rest: string, n: nat)
    requires v < Pow10(n) && (n == 2 || n == 4)
    ensures TakeDigits(Pad(v, n) + rest, n, n) == Some((v, rest))
  {
    PadIs(v, n, n);
    TakesDigits(Pad(v, n), rest, n, n);
  }

  function Signed(sign: char, size: int): int {
    if sign == '-' then -size else size
  }

  predicate IsSign(sign: char) {
    sign == '+' || sign == '-'
  }

  lemma HoursBack(op: Op, sign: char, h: nat, rest: string)
    requires op.OffsetHour? && IsSign(sign) && h < 100 && NotDigit(rest)
    ensures TakeOffset(op, [sign] + Pad(h, 2) + rest) == Some((Signed(sign, h * 3600), rest))
  {
    hide TakeDigits, Pad, NotDigit;
    var s := [sign] + Pad(h, 2) + rest;
    assert s[0] == sign && s[1..] == Pad(h, 2) + rest && !StartsWith(s, "Z");
    TwoDigits(h, rest);
    NoDigits(rest);
  }

  lemma ColonBack(op: Op, sign: char, h: nat, m: nat, rest: string)
    requires op.OffsetColon? && IsSign(sign) && h < 100 && m < 60
    ensures TakeOffset(op, [sign] + Pad(h, 2) + ":" + Pad(m, 2) + rest) == Some((Signed(sign, h * 3600 + m * 60), rest))
  {
    hide TakeDigits, Pad;
    var minutes := Pad(m, 2) + rest;
    var s := [sign] + Pad(h, 2) + ":" + Pad(m, 2) + rest;
    assert s[0] == sign && s[1..] == Pad(h, 2) + (":" + minutes) && !StartsWith(s, "Z");
    TwoDigits(h, ":" + minutes);
    TwoDigits(m, rest);
    Prefixed(":", minutes);
  }

  lemma MinutesBack(op: Op, sign: char, h: nat, m: nat, rest: string)
    requires op.OffsetBasic? || op.OffsetHour? || op.OffsetRfc?
    requires IsSign(sign) && h < 100 && m < 60
    ensures TakeOffset(op, [sign] + Pad(h, 2) + Pad(m, 2) + rest) == Some((Signed(sign, h * 3600 + m * 60), rest))
  {
    hide TakeDigits, Pad;
    var minutes := Pad(m, 2) + rest;
    var s := [sign] + Pad(h, 2) + Pad(m, 2) + rest;
    assert s[0] == sign && s[1..] == Pad(h, 2) + minutes && !StartsWith(s, "Z");
    TwoDigits(h, minutes);
    TwoDigits(m, rest);
  }

  lemma SizeSplits(size: nat)
    requires size % 60 == 0 && size < 360_000
    ensures size == HoursIn(size) * 3600 + MinutesIn(size) * 60 && HoursIn(size) < 100 && MinutesIn(size) < 60
  {}

  lemma OffsetBack(op: Op, offset: int, rest: string)
    requires NamesOffset(op) && Printable(offset) && (Loose(op, offset) ==> NotDigit(rest))
    ensures TakeOffset(op, OffsetText(op, offset) + rest) == Some((offset, rest))
  {
    hide TakeOffset, OffsetText, Pad, NotDigit, StartsWith, HoursIn, MinutesIn;
    OffsetTextIs(op, offset);
    if offset == 0 && !op.OffsetRfc? {
      ZuluBack(op, rest);
    } else {
      var size := if offset < 0 then -offset else offset;
      var h, m := HoursIn(size), MinutesIn(size);
      SizeSplits(size);
      var sign := if offset < 0 then '-' else '+';
      if op.OffsetHour? && m == 0 {
        HoursBack(op, sign, h, rest);
      } else if op.OffsetColon? {
        ColonBack(op, sign, h, m, rest);
      } else {
        MinutesBack(op, sign, h, m, rest);
      }
    }
  }

  lemma ZuluBack(op: Op, rest: string)
    requires !op.OffsetRfc?
    ensures TakeOffset(op, "Z" + rest) == Some((0, rest))
  {
    Prefixed("Z", rest);
  }

  lemma OffsetTextIs(op: Op, offset: int)
    ensures var size := if offset < 0 then -offset else offset;
            var head := [if offset < 0 then '-' else '+'] + Pad(HoursIn(size), 2);
            OffsetText(op, offset) ==
              if offset == 0 && !op.OffsetRfc? then "Z"
              else if op.OffsetHour? && MinutesIn(size) == 0 then head
              else if op.OffsetColon? then head + ":" + Pad(MinutesIn(size), 2)
              else head + Pad(MinutesIn(size), 2)
  {
    hide Pad, HoursIn, MinutesIn;
  }

  lemma TwoDigits(v: nat, rest: string)
    requires v < 100
    ensures TakeDigits(Pad(v, 2) + rest, 2, 2) == Some((v, rest))
  {
    Hundreds();
    YearBack(v, rest, 2);
  }

  lemma NoDigits(rest: string)
    requires NotDigit(rest)
    ensures TakeDigits(rest, 2, 2).None?
  {}

  // ----- whole patterns -----

  /** The text of the operations can start with a digit. */
  predicate CanStartDigit(ops: seq<Op>) {
    ops != [] &&
    match ops[0]
    case Lit(text) => NotDigit(text) == false
    case MonthShort => false
    case MonthLong => false
    case WeekShort => false
    case WeekLong => false
    case AmPm => false
    case OffsetColon => false
    case OffsetBasic => false
    case OffsetHour => false
    case OffsetRfc => false
    case _ => true
  }

  /** No loose field is followed by something that can start with a digit. */
  predicate Delimited(ops: seq<Op>, offset: int) {
    ops == [] || ((Loose(ops[0], offset) ==> !CanStartDigit(ops[1..])) && Delimited(ops[1..], offset))
  }

  lemma LetterFirst(op: Op, t: Stamp)
    requires InRange(t) && WellFormed(op)
    ensures OpText(op, t) != []
    ensures IsDigit(OpText(op, t)[0]) ==> CanStartDigit([op])
  {
    hide Pad, IntText, Pow10;
    match op
    case MonthShort => assert MONTHS[t.month - 1] in MONTHS;
    case MonthLong => assert MONTHS[t.month - 1] in MONTHS;
    case Fraction(pad) => NanosBack(t.nanos, pad, "");
    case Year2 => SomeDigits(Rem(t.year, 100), 2);
    case Year4 => SomeDigits(t.year, 4);
    case MonthNum(pad) => SomeDigits(t.month, pad);
    case Day(pad) => SomeDigits(t.day, pad);
    case Hour24(pad) => SomeDigits(t.hour, pad);
    case Hour12(pad) => SomeDigits(Hour12Of(t.hour), pad);
    case Minute(pad) => SomeDigits(t.minute, pad);
    case Second(pad) => SomeDigits(t.second, pad);
    case _ =>
  }

  lemma SomeDigits(v: nat, width: nat)
    ensures Pad(v, width) != []
  {
    DigitsValue(v);
  }

  lemma TextStarts(ops: seq<Op>, t: Stamp)
    requires InRange(t) && (forall op <- ops :: WellFormed(op)) && !CanStartDigit(ops)
    ensures NotDigit(TextOf(ops, t))
  {
    hide OpText;
    if ops != [] {
      LetterFirst(ops[0], t);
      assert TextOf(ops, t)[0] == OpText(ops[0], t)[0];
    }
  }

  function RereadAll(ops: seq<Op>, t: Stamp, f: Fields): Fields
    requires forall op <- ops :: WellFormed(op)
    decreases ops
  {
    if ops == [] then f else RereadAll(ops[1..], t, Reread(ops[0], t, f))
  }

  lemma {:induction false} OpsBack(ops: seq<Op>, t: Stamp, f: Fields)
    requires InRange(t) && (forall op <- ops :: WellFormed(op)) && Delimited(ops, t.offset)
    requires (exists op <- ops :: op.Year2?) ==> 2000 <= t.year < 2100
    requires Has(ops, POffset) ==> Printable(t.offset)
    ensures OpsRead(ops, TextOf(ops, t), f) == Yes((RereadAll(ops, t, f), ""))
    decreases ops
  {
    hide OpText, OpRead, Reread, CanStartDigit, Loose, Printable;
    if ops != [] {
      var op, rest := ops[0], TextOf(ops[1..], t);
      assert op in ops;
      if Loose(op, t.offset) { TextStarts(ops[1..], t); }
      OpBack(op, t, rest, f);
      OpsBack(ops[1..], t, Reread(op, t, f));
    }
  }

  // ----- what survives -----

  datatype Part = PYear | PMonth | PDay | PHour | PTwelve | PAmPm | PMinute | PSecond | POffset

  predicate IsPart(op: Op, part: Part) {
    match part
    case PYear => NamesYear(op)
    case PMonth => NamesMonth(op)
    case PDay => op.Day?
    case PHour => op.Hour24? || op.Hour12?
    case PTwelve => op.Hour12?
    case PAmPm => op.AmPm?
    case PMinute => op.Minute?
    case PSecond => op.Second?
    case POffset => NamesOffset(op)
  }

  /** The pattern names the part. */
  predicate Has(ops: seq<Op>, part: Part) {
    ops != [] && (IsPart(ops[0], part) || Has(ops[1..], part))
  }

  lemma {:induction false} HasSome(ops: seq<Op>, part: Part)
    ensures Has(ops, part) <==> exists op <- ops :: IsPart(op, part)
  {
    if ops != [] {
      HasSome(ops[1..], part);
      assert forall o :: o in ops <==> o == ops[0] || o in ops[1..];
    }
  }

  lemma ParseableHas(ops: seq<Op>)
    requires Unparseable(ops).None?
    ensures Has(ops, PYear) && Has(ops, PMonth) && Has(ops, PDay) && (Has(ops, PTwelve) ==> Has(ops, PAmPm))
  {
    hide Has;
    HasSome(ops, PYear);
    HasSome(ops, PMonth);
    HasSome(ops, PDay);
    HasSome(ops, PTwelve);
    HasSome(ops, PAmPm);
    assert IsPart(AmPm, PAmPm);
    assert forall op: Op :: op.AmPm? <==> IsPart(op, PAmPm);
    assert forall op: Op :: op.Hour12? <==> IsPart(op, PTwelve);
    assert forall op: Op :: op.Day? <==> IsPart(op, PDay);
    assert forall op: Op :: NamesYear(op) <==> IsPart(op, PYear);
    assert forall op: Op :: NamesMonth(op) <==> IsPart(op, PMonth);
  }

  /** The last fraction named decides the digits kept. */
  function FractionOf(ops: seq<Op>, nanos: int, none: int): int
    requires forall op <- ops :: WellFormed(op)
    decreases ops
  {
    if ops == [] then none
    else
      assert WellFormed(ops[0]);
      FractionOf(ops[1..], nanos, if ops[0].Fraction? then Truncated(nanos, ops[0].pad) else none)
  }

  lemma {:induction false} RereadDate(ops: seq<Op>, t: Stamp, f: Fields)
    requires forall op <- ops :: WellFormed(op)
    ensures var g := RereadAll(ops, t, f);
            && g.year == (if Has(ops, PYear) then t.year else f.year)
            && g.month == (if Has(ops, PMonth) then t.month else f.month)
            && g.day == (if Has(ops, PDay) then t.day else f.day)
    decreases ops
  {
    if ops != [] { RereadDate(ops[1..], t, Reread(ops[0], t, f)); }
  }

  lemma {:induction false} RereadRest(ops: seq<Op>, t: Stamp, f: Fields)
    requires forall op <- ops :: WellFormed(op)
    ensures var g := RereadAll(ops, t, f);
            && (g.weekday == Some(t.weekday) || g.weekday == f.weekday)
            && g.offset == (if Has(ops, POffset) then t.offset else f.offset)
    decreases ops
  {
    if ops != [] { RereadRest(ops[1..], t, Reread(ops[0], t, f)); }
  }

  lemma {:induction false} RereadClock(ops: seq<Op>, t: Stamp, f: Fields)
    requires forall op <- ops :: WellFormed(op)
    ensures var g := RereadAll(ops, t, f);
            && g.minute == (if Has(ops, PMinute) then t.minute else f.minute)
            && g.second == (if Has(ops, PSecond) then t.second else f.second)
            && g.nanos == FractionOf(ops, t.nanos, f.nanos)
    decreases ops
  {
    hide Truncated;
    if ops != [] { RereadClock(ops[1..], t, Reread(ops[0], t, f)); }
  }

  lemma {:induction false} RereadHour(ops: seq<Op>, t: Stamp, f: Fields)
    requires forall op <- ops :: WellFormed(op)
    ensures var g := RereadAll(ops, t, f);
            && g.have12 == (f.have12 || Has(ops, PTwelve))
            && g.havePm == (f.havePm || Has(ops, PAmPm))
            && g.pm == (if Has(ops, PAmPm) then t.hour >= 12 else f.pm)
            && (if !Has(ops, PHour) then g.hour == f.hour
                else g.hour == t.hour || (Has(ops, PTwelve) && g.hour == Hour12Of(t.hour)))
            && (Has(ops, PTwelve) ==> Has(ops, PHour))
    decreases ops
  {
    hide Hour12Of;
    if ops != [] { RereadHour(ops[1..], t, Reread(ops[0], t, f)); }
  }

  /** The stamp without what the pattern does not name, read as UTC if no offset is; the fraction cut to its
      digits. */
  function Zeroed(ops: seq<Op>, t: Stamp): Stamp
    requires forall op <- ops :: WellFormed(op)
  {
    t.(hour := if Has(ops, PHour) then t.hour else 0,
       minute := if Has(ops, PMinute) then t.minute else 0,
       second := if Has(ops, PSecond) then t.second else 0,
       nanos := FractionOf(ops, t.nanos, 0),
       offset := if Has(ops, POffset) then t.offset else 0)
  }

  lemma StampBack(day: int, h: int, mi: int, sec: int, nanos: int, offset: int)
    requires 0 <= h < 24 && 0 <= mi < 60 && 0 <= sec < 60
    ensures var t := Instant((day - Calendar.UNIX_EPOCH) * DAY + h * 3600 + mi * 60 + sec - offset, nanos, offset);
            var d := Calendar.Civil(day);
            StampOf(t) == Stamp(d.year, d.month, d.day, Calendar.Weekday(day), h, mi, sec, nanos, offset)
  {
    hide Calendar.Civil, Calendar.Weekday;
    ClockBack(day - Calendar.UNIX_EPOCH, h, mi, sec);
  }

  lemma ClockBack(x: int, h: int, mi: int, sec: int)
    requires 0 <= h < 24 && 0 <= mi < 60 && 0 <= sec < 60
    ensures var t := x * DAY + h * 3600 + mi * 60 + sec;
            && t / DAY == x && t % DAY / 3600 == h && t % DAY / 60 % 60 == mi && t % DAY % 60 == sec
  {
    var clock := h * 3600 + mi * 60 + sec;
    DayAndClock(x, clock);
    assert clock / 60 == h * 60 + mi;
  }

  lemma DayAndClock(x: int, clock: int)
    requires 0 <= clock < DAY
    ensures (x * DAY + clock) / DAY == x && (x * DAY + clock) % DAY == clock
  {}

  lemma StampInRange(t: Instant)
    requires 0 <= t.nanos < 1_000_000_000 && 0 <= StampOf(t).year <= 9999
    ensures InRange(StampOf(t))
  {
    hide Calendar.Civil;
    var clock := (t.secs + t.offset) % DAY;
    assert 0 <= clock / 3600 < 24;
  }

  /** Parsing the text of an instant gives its wall-clock time back, with exactly the fields the pattern does not
      name set to zero, the fraction cut to the digits the pattern has, and the offset if it is named.  For
      UTC instants nothing is asked of the offset fields. */
  lemma FormatThenParse(ops: seq<Op>, t: Instant)
    requires (forall op <- ops :: WellFormed(op)) && Unparseable(ops).None? && Delimited(ops, t.offset)
    requires 0 <= t.nanos < 1_000_000_000 && 0 <= StampOf(t).year <= 9999
    requires (exists op <- ops :: op.Year2?) ==> 2000 <= StampOf(t).year < 2100
    requires Has(ops, POffset) ==> Printable(t.offset)
    ensures var r := ParseOf(ops, TextOf(ops, StampOf(t))); r.Yes? && StampOf(r.v) == Zeroed(ops, StampOf(t))
  {
    hide StampOf, OpsRead, TextOf, RereadAll, Has, FractionOf, Delimited, Unparseable, InstantOf, Calendar.Civil, Printable;
    var stamp := StampOf(t);
    StampInRange(t);
    DateOfStamp(t);
    OpsBack(ops, stamp, START);
    RereadDate(ops, stamp, START);
    RereadRest(ops, stamp, START);
    RereadClock(ops, stamp, START);
    RereadHour(ops, stamp, START);
    ParseableHas(ops);
    var g := RereadAll(ops, stamp, START);
    HourBack(ops, stamp, g);
    MonthsStayReal(ops, TextOf(ops, stamp), START);
    GoodFinish(g, DayOf(t), HourOf(g));
  }

  lemma DateOfStamp(t: Instant)
    ensures var s := StampOf(t);
            && s.nanos == t.nanos && s.offset == t.offset
            && Calendar.ValidDate(s.year, s.month, s.day) && Calendar.Civil(DayOf(t)) == Calendar.Date(s.year, s.month, s.day)
            && Calendar.DayNumber(s.year, s.month, s.day) == DayOf(t) && s.weekday == Calendar.Weekday(DayOf(t))
  {}

  /** Fields that name a real day finish as that day. */
  lemma GoodFinish(g: Fields, day: int, h: int)
    requires 1 <= g.month <= 12
    requires Calendar.Civil(day) == Calendar.Date(g.year, g.month, g.day)
    requires g.weekday.None? || g.weekday == Some(Calendar.Weekday(day))
    requires h == HourOf(g) && 0 <= h < 24 && 0 <= g.minute < 60 && 0 <= g.second < 60
    ensures Finish(g).Yes?
    ensures StampOf(Finish(g).v) == Stamp(g.year, g.month, g.day, Calendar.Weekday(day), h, g.minute, g.second, g.nanos, g.offset)
  {
    hide Calendar.Civil, StampOf, HourOf;
    StampBack(day, h, g.minute, g.second, g.nanos, g.offset);
  }

  lemma HourBack(ops: seq<Op>, t: Stamp, g: Fields)
    requires InRange(t)
    requires g.have12 == Has(ops, PTwelve) && g.havePm == Has(ops, PAmPm) && (Has(ops, PTwelve) ==> Has(ops, PAmPm))
    requires Has(ops, PAmPm) ==> g.pm == (t.hour >= 12)
    requires Has(ops, PTwelve) ==> Has(ops, PHour)
    requires if !Has(ops, PHour) then g.hour == 0
             else g.hour == t.hour || (Has(ops, PTwelve) && g.hour == Hour12Of(t.hour))
    ensures HourOf(g) == if Has(ops, PHour) then t.hour else 0
  {
    hide Has;
  }

  /** Wall-clock fields and offset determine the instant. */
  lemma StampDetermines(a: Instant, b: Instant)
    requires StampOf(a) == StampOf(b)
    ensures a == b
  {
    hide Calendar.Civil;
    DateOfStamp(a);
    DateOfStamp(b);
    assert DayOf(a) == DayOf(b);
    ClockOf(a.secs + a.offset);
    ClockOf(b.secs + b.offset);
  }

  lemma ClockOf(local: int)
    ensures var clock := local % DAY;
            && local == local / DAY * DAY + clock
            && clock == clock / 3600 * 3600 + clock / 60 % 60 * 60 + clock % 60
  {
    var clock := local % DAY;
    assert clock / 60 == clock / 3600 * 60 + clock / 60 % 60;
  }

  /** A pattern that names everything, offset included, gives back the very instant. */
  lemma FullPatternIsExact(ops: seq<Op>, t: Instant)
    requires (forall op <- ops :: WellFormed(op)) && Unparseable(ops).None? && Delimited(ops, t.offset)
    requires 0 <= t.nanos < 1_000_000_000 && 0 <= StampOf(t).year <= 9999
    requires (exists op <- ops :: op.Year2?) ==> 2000 <= StampOf(t).year < 2100
    requires Has(ops, PHour) && Has(ops, PMinute) && Has(ops, PSecond) && FractionOf(ops, t.nanos, 0) == t.nanos
    requires if Has(ops, POffset) then Printable(t.offset) else t.offset == 0
    ensures ParseOf(ops, TextOf(ops, StampOf(t))) == Yes(t)
  {
    FormatThenParse(ops, t);
    StampDetermines(ParseOf(ops, TextOf(ops, StampOf(t))).v, t);
  }
}
