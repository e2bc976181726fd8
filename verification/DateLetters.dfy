/** What each letter of a date pattern says of an instant, and what a pattern therefore prints and reads back. */
module DateLetters {
  import opened Text
  import opened DateOps
  import opened DateFormat
  import opened DateRoundTrip
  import Calendar
  import opened Options

  // ----- instants, in numbers -----

  /** h:mi:sec on the k-th day after 1 January 1970, as the wall clock of a zone shows it. */
  lemma StampIs(k: int, h: int, mi: int, sec: int, nanos: int, offset: int)
    requires 0 <= h < 24 && 0 <= mi < 60 && 0 <= sec < 60
    ensures var d := Calendar.Civil(719_528 + k);
            StampOf(Instant(86_400 * k + 3600 * h + 60 * mi + sec - offset, nanos, offset))
            == Stamp(d.year, d.month, d.day, (k + 4) % 7, h, mi, sec, nanos, offset)
  {
    hide *;
    Epoch(k);
    StampBack(719_528 + k, h, mi, sec, nanos, offset);
  }

  lemma Epoch(k: int)
    ensures Calendar.UNIX_EPOCH == 719_528 && DAY == 86_400 && Calendar.Weekday(719_528 + k) == (k + 4) % 7
  {}

  /** The epoch is a Thursday, the first of January 1970. */
  lemma EpochIs()
    ensures Calendar.Civil(719_528) == Calendar.Date(1970, 1, 1)
    ensures StampOf(Instant(0, 0, 0)) == Stamp(1970, 1, 1, 4, 0, 0, 0, 0, 0) && DayName(4) == "Thursday"
  {
    hide Calendar.Civil, StampOf;
    assert Calendar.DayNumber(1970, 1, 1) == 719_528;
    Calendar.CivilOfDayNumber(1970, 1, 1);
    StampIs(0, 0, 0, 0, 0, 0);
  }

  // ----- what a letter says -----

  /** The letters a pattern may use, and how often in a row. */
  predicate Known(c: char, n: nat) {
    n >= 1 &&
    match c
    case 'y' => n == 2 || n == 4
    case 'M' => n <= 4
    case 'd' => n <= 2
    case 'E' => n <= 4
    case 'H' => n <= 2
    case 'h' => n <= 2
    case 'm' => n <= 2
    case 's' => n <= 2
    case 'S' => n <= 9
    case 'a' => n == 1
    case 'X' => n <= 3
    case 'Z' => n <= 3
    case _ => false
  }

  function MonthName(month: int): (s: string)
    requires 1 <= month <= 12
    ensures |s| >= 3
  {
    match month
    case 1 => "January"
    case 2 => "February"
    case 3 => "March"
    case 4 => "April"
    case 5 => "May"
    case 6 => "June"
    case 7 => "July"
    case 8 => "August"
    case 9 => "September"
    case 10 => "October"
    case 11 => "November"
    case _ => "December"
  }

  function DayName(weekday: int): (s: string)
    requires 0 <= weekday < 7
    ensures |s| >= 3
  {
    match weekday
    case 0 => "Sunday"
    case 1 => "Monday"
    case 2 => "Tuesday"
    case 3 => "Wednesday"
    case 4 => "Thursday"
    case 5 => "Friday"
    case _ => "Saturday"
  }

  /** `+hhmm`, `+hh:mm`, or `+hh` when there are no minutes; `Z` for zero under X. */
  function OffsetLetters(c: char, n: nat, offset: int): string {
    if c == 'X' && offset == 0 then "Z"
    else
      var size := if offset < 0 then -offset else offset;
      var head := (if offset < 0 then "-" else "+") + Pad(size / 3600, 2);
      var minutes := size / 60 % 60;
      if c == 'X' && n == 1 && minutes == 0 then head
      else if c == 'X' && n == 3 then head + ":" + Pad(minutes, 2)
      else head + Pad(minutes, 2)
  }

  function LetterText(c: char, n: nat, t: Stamp): string
    requires Known(c, n) && Real(t)
  {
    match c
    case 'y' => if n == 4 then Pad(t.year, 4) else Pad(if t.year < 0 then -(-t.year % 100) else t.year % 100, 2)
    case 'M' => if n <= 2 then Pad(t.month, n) else if n == 3 then MonthName(t.month)[..3] else MonthName(t.month)
    case 'd' => Pad(t.day, n)
    case 'E' => if n <= 3 then DayName(t.weekday)[..3] else DayName(t.weekday)
    case 'H' => Pad(t.hour, n)
    case 'h' => Pad(if t.hour % 12 == 0 then 12 else t.hour % 12, n)
    case 'm' => Pad(t.minute, n)
    case 's' => Pad(t.second, n)
    case 'S' => Pad(t.nanos, 9)[..n]
    case 'a' => if t.hour < 12 then "AM" else "PM"
    case _ => OffsetLetters(c, n, t.offset)
  }

  function RunText(run: Run, t: Stamp): string
    requires Real(t) && (run.Token? ==> Known(run.ch, run.n))
  {
    match run
    case Literal(text) => text
    case Token(c, n) => LetterText(c, n, t)
  }

  predicate AllKnown(runs: seq<Run>) {
    forall r <- runs | r.Token? :: Known(r.ch, r.n)
  }

  /** Every run in its place. */
  function RunsText(runs: seq<Run>, t: Stamp): string
    requires Real(t) && AllKnown(runs)
  {
    if runs == [] then "" else RunText(runs[0], t) + RunsText(runs[1..], t)
  }

  // ----- the compiler against the letters -----

  lemma NamesAre()
    ensures |MONTHS| == 12 && forall m | 1 <= m <= 12 :: MONTHS[m - 1] == MonthName(m)
    ensures |WEEKDAYS| == 7 && forall w | 0 <= w < 7 :: WEEKDAYS[w] == DayName(w)
  {}

  lemma OffsetIs(op: Op, c: char, n: nat, offset: int)
    requires RunOp(Token(c, n)) == Ok(op) && NamesOffset(op) && n >= 1
    ensures OffsetText(op, offset) == OffsetLetters(c, n, offset)
  {
    hide Pad;
    var size := if offset < 0 then -offset else offset;
    assert size % 3600 / 60 == size / 60 % 60;
  }

  lemma RunKnown(run: Run)
    requires run.Token? ==> run.n >= 1
    ensures RunOp(run).Ok? <==> run.Token? ==> Known(run.ch, run.n)
    ensures RunOp(run).Ok? && run.Literal? ==> RunOp(run).v == Lit(run.text)
  {}

  lemma RunPrints(run: Run, t: Stamp)
    requires Real(t) && (run.Token? ==> Known(run.ch, run.n))
    ensures RunOp(run).Ok? && OpText(RunOp(run).v, t) == RunText(run, t)
  {
    hide Pad, OffsetText, OffsetLetters, IntText, MonthName, DayName;
    NamesAre();
    if run.Token? {
      var op := RunOp(run).v;
      if run.ch == 'X' || run.ch == 'Z' {
        OffsetIs(op, run.ch, run.n, t.offset);
      } else if run.ch == 'S' {
        NanosText(t.nanos);
        PadIsZeros(t.nanos, 9);
      }
    }
  }

  lemma {:induction false} SpelledRuns(runs: seq<Run>, p: string)
    requires Spells(runs, p)
    ensures forall r <- runs | r.Token? :: r.n >= 1
  {
    if runs != [] {
      var n: nat :| n <= |p| && Writes(runs[0], p[..n], p[n..]) && Spells(runs[1..], p[n..]);
      SpelledRuns(runs[1..], p[n..]);
    }
  }

  lemma {:induction false} RunsKnown(runs: seq<Run>)
    requires forall r <- runs | r.Token? :: r.n >= 1
    ensures OpsOf(runs).Ok? <==> AllKnown(runs)
    ensures OpsOf(runs).Ok? ==> |OpsOf(runs).v| == |runs|
  {
    hide RunOp, Known;
    if runs != [] {
      RunKnown(runs[0]);
      RunsKnown(runs[1..]);
      assert forall r <- runs :: r == runs[0] || r in runs[1..];
    }
  }

  lemma {:induction false} RunsPrint(runs: seq<Run>, t: Stamp)
    requires AllKnown(runs) && Real(t) && OpsOf(runs).Ok?
    ensures TextOf(OpsOf(runs).v, t) == RunsText(runs, t)
  {
    hide RunOp, Known, OpText, RunText, Real;
    if runs != [] {
      RunPrints(runs[0], t);
      RunsPrint(runs[1..], t);
    }
  }

  /** A pattern compiles exactly when each of its runs is one the table knows, and then prints what its runs say, one
      after another. */
  lemma PatternPrints(p: string, runs: seq<Run>, t: Stamp)
    requires Spells(runs, p) && Real(t)
    ensures CompileOf(p).Ok? <==> AllKnown(runs)
    ensures AllKnown(runs) ==> TextOf(CompileOf(p).v, t) == RunsText(runs, t)
  {
    hide Real, Spells, Known;
    LexExact(p, runs);
    SpelledRuns(runs, p);
    RunsKnown(runs);
    if AllKnown(runs) { RunsPrint(runs, t); }
  }

  // ----- round trip, by letters -----

  ghost predicate Uses(runs: seq<Run>, letters: set<char>) {
    exists r <- runs :: r.Token? && r.ch in letters
  }

  /** A run that more digits would go on with: one figure unpadded, or an hour-only offset. */
  predicate GoesOn(r: Run, offset: int) {
    r.Token? && r.n == 1 && (r.ch in {'M', 'd', 'H', 'h', 'm', 's'} || (r.ch == 'X' && offset != 0))
  }

  predicate MayStartDigit(r: Run) {
    match r
    case Literal(text) => text != "" && IsDigit(text[0])
    case Token(c, n) => c in {'y', 'd', 'H', 'h', 'm', 's', 'S'} || (c == 'M' && n <= 2)
  }

  predicate Apart(runs: seq<Run>, offset: int) {
    forall i | 0 <= i < |runs| - 1 :: GoesOn(runs[i], offset) ==> !MayStartDigit(runs[i + 1])
  }

  /** The fraction as the last run of S leaves it. */
  function Kept(runs: seq<Run>, nanos: int, none: int): int
    requires AllKnown(runs)
  {
    if runs == [] then none
    else Kept(runs[1..], nanos, if runs[0].Token? && runs[0].ch == 'S' then nanos - nanos % Pow10(9 - runs[0].n) else none)
  }

  lemma RunIsPart(run: Run, part: Part)
    requires run.Token? ==> Known(run.ch, run.n)
    ensures RunOp(run).Ok? && (IsPart(RunOp(run).v, part) <==> run.Token? && run.ch in LettersOf(part))
  {}

  function LettersOf(part: Part): set<char> {
    match part
    case PYear => {'y'}
    case PMonth => {'M'}
    case PDay => {'d'}
    case PHour => {'H', 'h'}
    case PTwelve => {'h'}
    case PAmPm => {'a'}
    case PMinute => {'m'}
    case PSecond => {'s'}
    case POffset => {'X', 'Z'}
  }

  lemma {:induction false} HasUses(runs: seq<Run>, part: Part)
    requires AllKnown(runs) && OpsOf(runs).Ok?
    ensures Has(OpsOf(runs).v, part) <==> Uses(runs, LettersOf(part))
  {
    hide RunOp, Known, IsPart, LettersOf;
    if runs != [] {
      RunIsPart(runs[0], part);
      HasUses(runs[1..], part);
      assert forall r :: r in runs <==> r == runs[0] || r in runs[1..];
    }
  }

  lemma RunBounds(run: Run)
    requires run.Token? ==> Known(run.ch, run.n)
    ensures RunOp(run).Ok? && (RunOp(run).v.Year2? <==> run == Token('y', 2))
    ensures RunOp(run).v.Fraction? <==> run.Token? && run.ch == 'S'
    ensures RunOp(run).v.Fraction? ==> RunOp(run).v.pad == run.n
    ensures forall offset :: Loose(RunOp(run).v, offset) <==> GoesOn(run, offset)
    ensures CanStartDigit([RunOp(run).v]) <==> MayStartDigit(run)
  {}

  lemma {:induction false} RunsBounds(runs: seq<Run>, offset: int)
    requires AllKnown(runs) && OpsOf(runs).Ok?
    ensures (exists op <- OpsOf(runs).v :: op.Year2?) <==> Token('y', 2) in runs
    ensures CanStartDigit(OpsOf(runs).v) <==> runs != [] && MayStartDigit(runs[0])
    ensures Apart(runs, offset) ==> Delimited(OpsOf(runs).v, offset)
  {
    hide RunOp, Known, Loose, GoesOn, MayStartDigit;
    if runs != [] {
      var op, rest := RunOp(runs[0]).v, OpsOf(runs[1..]).v;
      RunBounds(runs[0]);
      assert OpsOf(runs).v == [op] + rest && OpsOf(runs).v[1..] == rest;
      assert op in OpsOf(runs).v && forall o <- rest :: o in OpsOf(runs).v;
      RunsBounds(runs[1..], offset);
      assert forall o :: o in OpsOf(runs).v <==> o == op || o in rest;
      if Apart(runs, offset) {
        assert forall i | 0 <= i < |runs[1..]| :: runs[1..][i] == runs[i + 1];
        assert Apart(runs[1..], offset);
      }
    }
  }

  lemma CutIs(nanos: int, pad: nat)
    requires pad <= 9
    ensures Truncated(nanos, pad) == nanos - nanos % Pow10(9 - pad)
  {
    var p := Pow10(9 - pad);
    assert nanos == p * (nanos / p) + nanos % p;
  }

  lemma {:induction false} FractionIs(runs: seq<Run>, nanos: int, none: int)
    requires AllKnown(runs) && OpsOf(runs).Ok? && forall op <- OpsOf(runs).v :: WellFormed(op)
    ensures FractionOf(OpsOf(runs).v, nanos, none) == Kept(runs, nanos, none)
  {
    hide RunOp, Known, Truncated, Pow10, WellFormed;
    if runs != [] {
      var run, op, rest := runs[0], RunOp(runs[0]).v, OpsOf(runs[1..]).v;
      RunBounds(run);
      assert OpsOf(runs).v == [op] + rest && OpsOf(runs).v[1..] == rest;
      assert op in OpsOf(runs).v && forall o <- rest :: o in OpsOf(runs).v;
      if op.Fraction? {
        PadIsShort(op);
        CutIs(nanos, op.pad);
      }
      FractionIs(runs[1..], nanos, if op.Fraction? then Truncated(nanos, op.pad) else none);
    }
  }

  lemma PadIsShort(op: Op)
    requires op.Fraction? && WellFormed(op)
    ensures op.pad <= 9
  {}

  /** Why a pattern cannot be parsed with: it has no letter for the year, the month or the day, or hours to twelve without
      AM or PM. */
  ghost function Missing(runs: seq<Run>): Option<Refusal> {
    if !Uses(runs, {'y'}) then Some(NoYear)
    else if !Uses(runs, {'M'}) then Some(NoMonth)
    else if !Uses(runs, {'d'}) then Some(NoDay)
    else if Uses(runs, {'h'}) && !Uses(runs, {'a'}) then Some(NoMeridiem)
    else None
  }

  lemma PartsIn(ops: seq<Op>)
    ensures Has(ops, PYear) <==> exists op <- ops :: NamesYear(op)
    ensures Has(ops, PMonth) <==> exists op <- ops :: NamesMonth(op)
    ensures Has(ops, PDay) <==> exists op <- ops :: op.Day?
    ensures Has(ops, PTwelve) <==> exists op <- ops :: op.Hour12?
    ensures Has(ops, PAmPm) <==> exists op <- ops :: op.AmPm?
  {
    hide Has;
    HasSome(ops, PYear);
    HasSome(ops, PMonth);
    HasSome(ops, PDay);
    HasSome(ops, PTwelve);
    HasSome(ops, PAmPm);
  }

  lemma UnparseableIs(runs: seq<Run>)
    requires AllKnown(runs) && OpsOf(runs).Ok?
    ensures Unparseable(OpsOf(runs).v) == Missing(runs)
  {
    hide Has, Uses, Known, OpsOf, NamesYear, NamesMonth;
    PartsIn(OpsOf(runs).v);
    HasUses(runs, PYear);
    HasUses(runs, PMonth);
    HasUses(runs, PDay);
    HasUses(runs, PTwelve);
    HasUses(runs, PAmPm);
  }

  /** Such a pattern refuses every text, for that reason. */
  lemma RefusesAll(p: string, runs: seq<Run>, s: string)
    requires Spells(runs, p) && AllKnown(runs) && Missing(runs).Some?
    ensures CompileOf(p).Ok? && forall op <- CompileOf(p).v :: WellFormed(op)
    ensures ParseOf(CompileOf(p).v, s) == No(Missing(runs).value)
  {
    hide Spells, Known, Uses, Unparseable, Missing;
    LexExact(p, runs);
    SpelledRuns(runs, p);
    RunsKnown(runs);
    LexTexts(p);
    CompiledIsWellFormed(runs);
    UnparseableIs(runs);
  }

  /** What a pattern says of an instant is read back: of the runs it spells, the hour survives when one is of H or h,
      the minute when one is of m, the second of s, the offset of X or Z, and the fraction to the digits of the last
      of S; whatever no run says is zero. */
  lemma PatternRoundTrip(p: string, runs: seq<Run>, t: Instant)
    requires Spells(runs, p) && AllKnown(runs) && Apart(runs, t.offset)
    requires Missing(runs).None?
    requires 0 <= t.nanos < 1_000_000_000 && 0 <= StampOf(t).year <= 9999
    requires Token('y', 2) in runs ==> 2000 <= StampOf(t).year < 2100
    requires Uses(runs, {'X', 'Z'}) ==> Printable(t.offset)
    ensures CompileOf(p).Ok? && forall op <- CompileOf(p).v :: WellFormed(op)
    ensures var s := StampOf(t);
            var r := ParseOf(CompileOf(p).v, RunsText(runs, s));
            && r.Yes?
            && StampOf(r.v) ==
               Stamp(s.year, s.month, s.day, s.weekday,
                     if Uses(runs, {'H', 'h'}) then s.hour else 0, if Uses(runs, {'m'}) then s.minute else 0,
                     if Uses(runs, {'s'}) then s.second else 0, Kept(runs, s.nanos, 0),
                     if Uses(runs, {'X', 'Z'}) then s.offset else 0)
  {
    hide StampOf, Has, Uses, Known, Spells, ParseOf, RunsText, TextOf, OpsOf, Kept, FractionOf, Delimited, Apart, Unparseable, Missing;
    LexExact(p, runs);
    var s := StampOf(t);
    StampReal(t);
    PatternPrints(p, runs, s);
    var ops := OpsOf(runs).v;
    LexTexts(p);
    CompiledIsWellFormed(runs);
    RunsBounds(runs, t.offset);
    FractionIs(runs, s.nanos, 0);
    UnparseableIs(runs);
    HasUses(runs, POffset);
    HasUses(runs, PHour);
    HasUses(runs, PMinute);
    HasUses(runs, PSecond);
    FormatThenParse(ops, t);
  }

  lemma StampReal(t: Instant)
    requires 0 <= t.nanos < 1_000_000_000
    ensures Real(StampOf(t)) && StampOf(t).nanos == t.nanos && StampOf(t).offset == t.offset
  {}

  // ----- figures -----

  /** Printing a number writes its decimal figures. */
  lemma FiguresAre(v: nat)
    ensures v < 10 ==> Digits(v) == ["0123456789"[v]]
    ensures v >= 10 ==> Digits(v) == Digits(v / 10) + ["0123456789"[v % 10]]
  {}

  /** Padding puts zeros in front, up to the width. */
  lemma PadIsZeros(v: nat, width: nat)
    ensures var z := |Pad(v, width)| - |Digits(v)|;
            && z >= 0 && |Pad(v, width)| == (if |Digits(v)| < width then width else |Digits(v)|)
            && Pad(v, width)[z..] == Digits(v) && forall i | 0 <= i < z :: Pad(v, width)[i] == '0'
  {
    ZerosAre(width - |Digits(v)|);
  }

  lemma {:induction false} ZerosAre(n: int)
    ensures forall i | 0 <= i < |Zeros(n)| :: Zeros(n)[i] == '0'
  {
    if n > 0 { ZerosAre(n - 1); }
  }
}
