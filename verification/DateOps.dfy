/** Date patterns compiled to a list of independent operations (pkg/bri/date_pattern.go).  A char stands
    for one byte of a Go string. */
module DateOps {
  import opened Text
  import opened Options

  datatype Op =
    | Lit(text: string)
    | Year2 | Year4
    | MonthNum(pad: nat) | MonthShort | MonthLong
    | Day(pad: nat) | WeekShort | WeekLong
    | Hour24(pad: nat) | Hour12(pad: nat) | Minute(pad: nat) | Second(pad: nat) | Fraction(pad: nat)
    | AmPm
    | OffsetColon | OffsetBasic | OffsetHour | OffsetRfc

  datatype Error = Unterminated | Unsupported(ch: char, n: nat) | BadRun(ch: char, n: nat)

  datatype Result<T> = Ok(v: T) | Err(e: Error)

  // ----- lexing -----

  datatype Run = Literal(text: string) | Token(ch: char, n: nat)

  const QUOTE := '\''

  predicate IsLetter(c: char) {
    'a' <= c <= 'z' || 'A' <= c <= 'Z'
  }

  /** Go's string(c) of a byte: the UTF-8 encoding of the code point of that number. */
  function StringOf(c: char): (s: string)
    ensures s != []
    ensures c < '\U{80}' ==> s == [c]
  {
    if c < '\U{80}' then [c] else [(192 + c as int / 64) as char, (128 + c as int % 64) as char]
  }

  /** How many more times c is repeated. */
  function Repeats(p: string, c: char): (n: nat)
    ensures n <= |p| && (forall i | 0 <= i < n :: p[i] == c) && (n < |p| ==> p[n] != c)
  {
    if p == [] || p[0] != c then 0
    else
      assert forall i | 0 < i < |p| :: p[i] == p[1..][i - 1];
      1 + Repeats(p[1..], c)
  }

  /** The first run and what is left; None for a quote that is not closed. */
  function FirstRun(p: string): (r: Option<(Run, string)>)
    requires p != []
    ensures r.Some? ==> |r.value.1| < |p|
  {
    if p[0] == QUOTE then
      if |p| > 1 && p[1] == QUOTE then Some((Literal([QUOTE]), p[2..]))
      else
        var j := Index(p[1..], QUOTE);
        if j == |p| - 1 then None else Some((Literal(p[1..][..j]), p[j + 2..]))
    else if !IsLetter(p[0]) then Some((Literal(StringOf(p[0])), p[1..]))
    else
      var n := 1 + Repeats(p[1..], p[0]);
      Some((Token(p[0], n), p[n..]))
  }

  function LexOf(p: string): Option<seq<Run>>
    decreases |p|
  {
    if p == [] then Some([])
    else match FirstRun(p)
      case None => None
      case Some((run, rest)) =>
        match LexOf(rest)
        case None => None
        case Some(runs) => Some([run] + runs)
  }

  /** `now` is a way to write the run when `after` follows it. */
  predicate Writes(run: Run, now: string, after: string) {
    match run
    case Token(c, n) =>
      n >= 1 && IsLetter(c) && now == seq(n, _ => c) && (after == [] || after[0] != c)
    case Literal(text) =>
      || (text == [QUOTE] && now == [QUOTE, QUOTE])
      || (text != [] && QUOTE !in text && now == [QUOTE] + text + [QUOTE])
      || (|now| == 1 && now[0] != QUOTE && !IsLetter(now[0]) && text == StringOf(now[0]))
  }

  /** The pattern is the runs written one after another. */
  predicate Spells(runs: seq<Run>, p: string)
    decreases runs
  {
    if runs == [] then p == []
    else exists n: nat | n <= |p| :: Writes(runs[0], p[..n], p[n..]) && Spells(runs[1..], p[n..])
  }

  lemma {:induction false} RepeatsIs(p: string, c: char, n: nat)
    requires n <= |p| && (forall i | 0 <= i < n :: p[i] == c) && (n < |p| ==> p[n] != c)
    ensures Repeats(p, c) == n
  {
    if n > 0 { RepeatsIs(p[1..], c, n - 1); }
  }

  /** A written run is read back as the first run. */
  lemma WritesThenFirst(run: Run, p: string, n: nat)
    requires n <= |p| && Writes(run, p[..n], p[n..])
    ensures p != [] && n >= 1 && FirstRun(p) == Some((run, p[n..]))
  {
    var now := p[..n];
    match run
    case Token(c, k) =>
      assert forall i | 0 <= i < n :: p[i] == now[i] == c;
      RepeatsIs(p[1..], c, n - 1);
    case Literal(text) =>
      assert p[0] == now[0];
      if text == [QUOTE] && now == [QUOTE, QUOTE] {
        assert p[1] == now[1];
      } else if text != [] && QUOTE !in text && now == [QUOTE] + text + [QUOTE] {
        assert p[1] == now[1] == text[0];
        assert forall i | 0 <= i < |text| :: p[1..][i] == now[i + 1] == text[i];
        assert p[1..][|text|] == now[n - 1] == QUOTE;
        assert p[1..][..|text|] == text;
        IndexIs(p[1..], QUOTE, |text|);
      }
  }

  /** The first run is one that is written there. */
  lemma FirstThenWrites(run: Run, p: string)
    requires p != [] && FirstRun(p).Some? && FirstRun(p).value.0 == run
    ensures var n := |p| - |FirstRun(p).value.1|;
            n >= 1 && p[n..] == FirstRun(p).value.1 && Writes(run, p[..n], p[n..])
  {
    var n := |p| - |FirstRun(p).value.1|;
    var now := p[..n];
    if p[0] == QUOTE {
      if |p| > 1 && p[1] == QUOTE {
        assert now == [QUOTE, QUOTE];
      } else {
        var j := Index(p[1..], QUOTE);
        assert p[1..][j] == p[j + 1] == QUOTE;
        assert j > 0;
        assert now == [QUOTE] + run.text + [QUOTE];
      }
    } else if IsLetter(p[0]) {
      assert forall i | 1 <= i < n :: p[i] == p[1..][i - 1];
      assert now == seq(n, _ => p[0]);
      assert n < |p| ==> p[n] == p[1..][n - 1];
    }
  }

  /** A pattern lexes to exactly the runs it spells, and to one such list only. */
  lemma {:induction false} LexExact(p: string, runs: seq<Run>)
    ensures LexOf(p) == Some(runs) <==> Spells(runs, p)
    decreases |p|
  {
    hide FirstRun, Writes;
    if LexOf(p) == Some(runs) && p != [] {
      FirstThenWrites(runs[0], p);
      var n := |p| - |FirstRun(p).value.1|;
      LexExact(p[n..], runs[1..]);
      assert runs[1..] == LexOf(p[n..]).value;
    }
    if Spells(runs, p) && runs != [] {
      var n: nat :| n <= |p| && Writes(runs[0], p[..n], p[n..]) && Spells(runs[1..], p[n..]);
      WritesThenFirst(runs[0], p, n);
      LexExact(p[n..], runs[1..]);
      assert runs == [runs[0]] + runs[1..];
    }
  }

  /** A byte outside quotes that is no letter stands for itself exactly when it is ASCII: any other is
      written out again as two bytes. */
  lemma UnquotedIffAscii(c: char)
    requires !IsLetter(c) && c != QUOTE
    ensures LexOf([c]) == Some([Literal([c])]) <==> c < '\U{80}'
  {
    assert [c][1..] == [];
    assert FirstRun([c]) == Some((Literal(StringOf(c)), []));
    var none: string := [];
    assert LexOf(none) == Some([]);
    assert [Literal(StringOf(c))] + [] == [Literal(StringOf(c))];
    assert LexOf([c]) == Some([Literal(StringOf(c))]);
  }

  /** The two bytes of any other byte are its code point in UTF-8. */
  lemma Reencoded(c: char)
    requires '\U{80}' <= c < '\U{100}'
    ensures |StringOf(c)| == 2 && (StringOf(c)[0] == '\U{C2}' || StringOf(c)[0] == '\U{C3}')
    ensures 64 * (StringOf(c)[0] as int - 0xC0) + (StringOf(c)[1] as int - 0x80) == c as int
  {}

  /** A doubled quote inside a quoted literal is not a quote: it ends one literal and starts the next. */
  lemma DoubledQuoteIsLost(a: string, b: string)
    requires a != [] && b != [] && QUOTE !in a && QUOTE !in b
    ensures LexOf([QUOTE] + a + [QUOTE, QUOTE] + b + [QUOTE]) == Some([Literal(a), Literal(b)])
  {
    var first, second := [QUOTE] + a + [QUOTE], [QUOTE] + b + [QUOTE];
    var p := [QUOTE] + a + [QUOTE, QUOTE] + b + [QUOTE];
    var runs := [Literal(a), Literal(b)];
    assert p == first + second && p[..|first|] == first && p[|first|..] == second;
    assert Writes(runs[0], first, second);
    assert second[..|second|] == second && second[|second|..] == [];
    assert Writes(runs[1], second, []);
    assert runs[1..] == [Literal(b)] && runs[1..][1..] == [];
    assert Spells(runs[1..][1..], second[|second|..]);
    assert Spells(runs[1..], second);
    LexExact(p, runs);
  }

  // ----- compiling -----

  const UNSUPPORTED: set<char> := {'G', 'Q', 'D', 'w', 'W', 'F', 'k', 'K', 'Y', 'u', 'z', 'V'}

  /** The operation of a letter repeated n times. */
  function TokenOp(c: char, n: nat): Option<Op> {
    match c
    case 'y' => if n == 2 then Some(Year2) else if n == 4 then Some(Year4) else None
    case 'M' =>
      if n == 1 || n == 2 then Some(MonthNum(n)) else if n == 3 then Some(MonthShort)
      else if n == 4 then Some(MonthLong) else None
    case 'd' => if 1 <= n <= 2 then Some(Day(n)) else None
    case 'E' => if n <= 3 then Some(WeekShort) else if n == 4 then Some(WeekLong) else None
    case 'H' => if 1 <= n <= 2 then Some(Hour24(n)) else None
    case 'h' => if 1 <= n <= 2 then Some(Hour12(n)) else None
    case 'm' => if 1 <= n <= 2 then Some(Minute(n)) else None
    case 's' => if 1 <= n <= 2 then Some(Second(n)) else None
    case 'S' => if 1 <= n <= 9 then Some(Fraction(n)) else None
    case 'a' => if n == 1 then Some(AmPm) else None
    case 'X' => if n == 1 then Some(OffsetHour) else if n == 2 then Some(OffsetBasic) else if n == 3 then Some(OffsetColon) else None
    case 'Z' => if n <= 3 then Some(OffsetRfc) else None
    case _ => None
  }

  function RunOp(run: Run): Result<Op> {
    match run
    case Literal(text) => Ok(Lit(text))
    case Token(c, n) =>
      if c in UNSUPPORTED then Err(Unsupported(c, n))
      else match TokenOp(c, n)
        case None => Err(BadRun(c, n))
        case Some(op) => Ok(op)
  }

  function OpsOf(runs: seq<Run>): Result<seq<Op>> {
    if runs == [] then Ok([])
    else match RunOp(runs[0])
      case Err(e) => Err(e)
      case Ok(op) =>
        match OpsOf(runs[1..])
        case Err(e) => Err(e)
        case Ok(ops) => Ok([op] + ops)
  }

  function CompileOf(p: string): Result<seq<Op>> {
    match LexOf(p)
    case None => Err(Unterminated)
    case Some(runs) => OpsOf(runs)
  }

  /** What every compiled operation is. */
  predicate WellFormed(op: Op) {
    match op
    case Lit(text) => text != []
    case MonthNum(pad) => 1 <= pad <= 2
    case Day(pad) => 1 <= pad <= 2
    case Hour24(pad) => 1 <= pad <= 2
    case Hour12(pad) => 1 <= pad <= 2
    case Minute(pad) => 1 <= pad <= 2
    case Second(pad) => 1 <= pad <= 2
    case Fraction(pad) => 1 <= pad <= 9
    case _ => true
  }

  lemma {:induction false} LexTexts(p: string)
    ensures LexOf(p).Some? ==> forall r <- LexOf(p).value | r.Literal? :: r.text != []
    decreases |p|
  {
    if p != [] && LexOf(p).Some? { LexTexts(FirstRun(p).value.1); }
  }

  lemma {:induction false} CompiledIsWellFormed(runs: seq<Run>)
    requires forall r <- runs | r.Literal? :: r.text != []
    ensures OpsOf(runs).Ok? ==> forall op <- OpsOf(runs).v :: WellFormed(op)
  {
    if runs != [] { CompiledIsWellFormed(runs[1..]); }
  }

  /** Lexing by an index into the pattern. */
  method Lex(p: string) returns (r: Option<seq<Run>>)
    ensures r == LexOf(p)
  {
    hide FirstRun, LexOf;
    var out: seq<Run> := [];
    var i := 0;
    LexStart(p);
    while i < |p|
      invariant i <= |p|
      invariant LexOf(p) == Gather(out, LexOf(p[i..]))
    {
      var c := p[i];
      if c == QUOTE {
        if i + 1 < |p| && p[i + 1] == QUOTE {
          TwoQuotes(p, i);
          LexStep(p, i, Literal([QUOTE]), i + 2, out);
          out := out + [Literal([QUOTE])];
          i := i + 2;
          continue;
        }
        var j := Index(p[i + 1..], QUOTE);
        Quoted(p, i);
        if j == |p[i + 1..]| { return None; }
        LexStep(p, i, Literal(p[i + 1..i + 1 + j]), i + j + 2, out);
        out := out + [Literal(p[i + 1..i + 1 + j])];
        i := i + j + 2;
        continue;
      }
      if !IsLetter(c) {
        OneChar(p, i);
        LexStep(p, i, Literal(StringOf(c)), i + 1, out);
        out := out + [Literal(StringOf(c))];
        i := i + 1;
        continue;
      }
      var n := 1;
      while i + n < |p| && p[i + n] == c
        invariant 1 <= n <= |p| - i
        invariant forall k | i < k < i + n :: p[k] == c
      {
        n := n + 1;
      }
      RunIs(p, i, n);
      LexStep(p, i, Token(c, n), i + n, out);
      out := out + [Token(c, n)];
      i := i + n;
    }
    LexEnd(p, out);
    r := Some(out);
  }

  lemma LexStart(p: string)
    ensures LexOf(p) == Gather([], LexOf(p[0..]))
  {
    assert p[0..] == p;
    Gathered([], LexOf(p));
  }

  lemma LexEnd(p: string, out: seq<Run>)
    ensures Gather(out, LexOf(p[|p|..])) == Some(out)
  {
    Gathered(out, None);
  }

  lemma LexStep(p: string, i: nat, run: Run, k: nat, out: seq<Run>)
    requires i < k <= |p| && FirstRun(p[i..]) == Some((run, p[k..]))
    ensures Gather(out, LexOf(p[i..])) == Gather(out + [run], LexOf(p[k..]))
  {
    Gathers(out, run, LexOf(p[k..]));
  }

  lemma TwoQuotes(p: string, i: nat)
    requires i + 1 < |p| && p[i] == p[i + 1] == QUOTE
    ensures FirstRun(p[i..]) == Some((Literal([QUOTE]), p[i + 2..]))
  {}

  lemma Quoted(p: string, i: nat)
    requires i < |p| && p[i] == QUOTE && (i + 1 < |p| ==> p[i + 1] != QUOTE)
    ensures var j := Index(p[i + 1..], QUOTE);
            if j == |p[i + 1..]| then FirstRun(p[i..]).None? && LexOf(p[i..]).None?
            else FirstRun(p[i..]) == Some((Literal(p[i + 1..i + 1 + j]), p[i + j + 2..]))
  {
    assert p[i..][1..] == p[i + 1..];
    var j := Index(p[i + 1..], QUOTE);
    if j < |p[i + 1..]| {
      assert p[i + 1..][..j] == p[i + 1..i + 1 + j];
      assert p[i..][j + 2..] == p[i + j + 2..];
    }
  }

  lemma OneChar(p: string, i: nat)
    requires i < |p| && p[i] != QUOTE && !IsLetter(p[i])
    ensures FirstRun(p[i..]) == Some((Literal(StringOf(p[i])), p[i + 1..]))
  {}

  function Gather(out: seq<Run>, r: Option<seq<Run>>): Option<seq<Run>> {
    if r.None? then None else Some(out + r.value)
  }

  lemma Gathers(out: seq<Run>, run: Run, r: Option<seq<Run>>)
    ensures Gather(out, Gather([run], r)) == Gather(out + [run], r)
  {
    if r.Some? { assert out + ([run] + r.value) == out + [run] + r.value; }
  }

  lemma Gathered(out: seq<Run>, r: Option<seq<Run>>)
    ensures Gather(out, Some([])) == Some(out) && Gather([], r) == r
  {
    assert out + [] == out;
    if r.Some? { assert [] + r.value == r.value; }
  }

  lemma RunIs(p: string, i: nat, n: nat)
    requires i < |p| && IsLetter(p[i]) && 1 <= n <= |p| - i
    requires forall k | i < k < i + n :: p[k] == p[i]
    requires i + n < |p| ==> p[i + n] != p[i]
    ensures FirstRun(p[i..]) == Some((Token(p[i], n), p[i + n..]))
  {
    RepeatsIs(p[i..][1..], p[i], n - 1);
    assert p[i..][n..] == p[i + n..];
  }

  function Continue(ops: seq<Op>, r: Result<seq<Op>>): Result<seq<Op>> {
    match r
    case Ok(rest) => Ok(ops + rest)
    case Err(e) => Err(e)
  }

  lemma GatherOps(ops: seq<Op>, op: Op, r: Result<seq<Op>>)
    ensures Continue(ops, Continue([op], r)) == Continue(ops + [op], r)
    ensures Continue(ops, Ok([])) == Ok(ops) && Continue([], r) == r
  {
    assert ops + [] == ops;
    if r.Ok? { assert ops + ([op] + r.v) == ops + [op] + r.v && [] + r.v == r.v; }
  }

  method Compile(p: string) returns (r: Result<seq<Op>>)
    ensures r == CompileOf(p)
  {
    var lexed := Lex(p);
    if lexed.None? { return Err(Unterminated); }
    var runs := lexed.value;
    var ops: seq<Op> := [];
    var i := 0;
    assert runs[0..] == runs;
    GatherOps(ops, AmPm, OpsOf(runs));
    while i < |runs|
      invariant i <= |runs|
      invariant OpsOf(runs) == Continue(ops, OpsOf(runs[i..]))
    {
      assert runs[i..][1..] == runs[i + 1..];
      var op := RunOp(runs[i]);
      if op.Err? { return Err(op.e); }
      GatherOps(ops, op.v, OpsOf(runs[i + 1..]));
      ops := ops + [op.v];
      i := i + 1;
    }
    GatherOps(ops, AmPm, Ok([]));
    r := Ok(ops);
  }

  // ----- the memo table -----

  /** Patterns compiled so far; failures are remembered too. */
  class Memo {
    var table: map<string, Result<seq<Op>>>

    predicate Valid()
      reads this
    {
      forall p <- table :: table[p] == CompileOf(p)
    }

    constructor ()
      ensures Valid() && table == map[]
    {
      table := map[];
    }

    /** The answer is the compiler's, whatever was looked up before; a pattern is compiled once. */
    method Lookup(p: string) returns (r: Result<seq<Op>>)
      requires Valid()
      modifies this
      ensures Valid() && r == CompileOf(p)
      ensures table == old(table)[p := r] && (p in old(table) ==> table == old(table))
    {
      if p in table {
        assert table[p := table[p]] == table;
        return table[p];
      }
      r := Compile(p);
      table := table[p := r];
    }
  }
}
